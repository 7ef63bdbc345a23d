# A verified model of the Fiach review daemon

Fiach reviews pull requests: it polls for work, claims a review durably, runs it, and publishes
the result on the pull request. This project models the parts of it that are state machines,
parsers or allocators, in Dafny, and proves what they promise over every run and every input.
`dafny verify dfyconfig.toml` checks all of it.

- **Durable reviews.** `ReviewState` holds the record of one review key and the transactions that
  change it (migration, decision, claim, completion, recovery, the mention override), as methods on
  a table of records. `ReviewRuns` puts them into runs of one key: attempts, late results, failures,
  crashes and restarts in any order, with a clock that does not go back. `ReviewDeadlines` says how
  late a review may report, `DecisionRuns` takes decision and claim apart, and `ClaimRuns` interleaves
  the bare transactions of any number of jobs and keys.
- **Publication.** `Disclosure` is the journal, the discussion and any number of finalizers as a
  step system with crashes, lost replies and foreign posts between any two steps. `Finalizer` is one
  finalization as a method, proved to be a run of those steps. `PublicationRuns` runs reviews and
  finalizers together. `StateKeys` holds the table keys and the marker that finds an earlier post.
- **Scheduling.** `Scheduler` is the queue, the active set, the target index, the job table and the
  terminal list on a class; `SchedulerRuns` proves that they agree in every reachable state.
  `Backlog` is the poll backlog, `Health` the sliding-window monitor, `Subnets` the pool of sandbox
  networks.
- **Parsers and scanners.** `DiffAnchors` reads and prints unified diffs and `DiffExact` says when
  the anchors are exact; `UsageScan` scans responses chunk by chunk and `Billing` charges for them;
  `EventStreams` prints the streams that are scanned; `Paging` is the inspection pager and `PagingHints`
  reads its answers; `Mentions` the mention search; `Calibration` the token estimate.

Text is a sequence of bytes, one `char` each, except in the pager, where a `char` is a character with
a UTF-8 width. A database transaction is one step. Time is an integer given to each operation.

Several promises hold only under a condition, and then the condition is stated as an equivalence or
next to a concrete run that breaks it without it:

- with a deadline on reports, the retry limit is kept over every run if and only if the limit is zero
  or the deadline is no longer than the stale window (`ReviewDeadlines.BudgetNeedsTimelyReports`);
  with decision and claim in separate steps each claim must also find the record its decision saw
  (`DecisionRuns.BudgetNeedsUndisturbedDecisions`);
- claims exclude each other unless one is stale or dated ahead of the clock, so the clock must not
  go back (`ClaimRuns.ClaimIsGrantedIff`);
- a mention is spent by the review it starts if and only if it is not ahead of the clock
  (`ReviewRuns.MentionRepeatsIff`), as long as no report is dated back; with a deadline on reports,
  past mentions are one-shot if and only if the deadline is no longer than the stale window
  (`ReviewDeadlines.MentionsNeedTimelyReports`);
- with a deadline on attempts and their finalizers, a publication key gets at most one post if and
  only if the deadline is no longer than the stale window
  (`PublicationRuns.ClaimsKeepPublicationsSingle`);
- diff anchors are exact if and only if no added text starts with "++" and no missing-newline marker
  comes before an added line of its hunk (`DiffExact.AnchorsAreExact`);
- the mention search is complete if and only if the name does not overlap itself, which holds for
  every name without '@' (`Mentions.SearchIsExact`);
- a review key reads back if and only if the repository name passes a check on its bars
  (`StateKeys.KeysParseBack`);
- a size rejection is remembered if and only if the request's ratio exceeds 1.35
  (`Calibration.RejectionIsRemembered`);
- following the pager's hints shows every line whole if and only if each block of lines fits its page
  (`Paging.WalkIsWholeIff`); otherwise a line is cut, and the hints never come back to the rest of it,
  or to the line at all when not even its first character fits (`Paging.LineIsShown`).

## Model

| member | source | states |
|---|---|---|
| ReviewState.StateStore.MigrateReviewRetry | src/state.rs:435-468 | a failed record of the old format gets a fresh count and a staggered delay, once; no other key changes |
| ReviewState.StateStore.ShouldReviewWithRetryLimit | src/state.rs:470-613 | migrates, then decides from the stored record: stale claims, other commits, retry limit and retry time |
| ReviewState.StateStore.LockForReview | src/state.rs:648-742 | the claim is refused exactly while a claim is live; otherwise the record is overwritten, the thread kept and a same-commit retry counted |
| ReviewState.StateStore.TryClaim | src/state.rs:1049-1087 | the same claim rule for a record the caller filled in |
| ReviewState.StateStore.MarkReviewed | src/state.rs:616-644 | the result replaces the record and inherits its discussion thread |
| ReviewState.StateStore.RecoverInterrupted | src/state.rs:1021-1047 | exactly the interrupted records become failed at the restart time, and their number is returned |
| ReviewState.StateStore.DecideAndClaim | src/daemon.rs:1151-1230 | the whole start path of a job for one key: migration, decision, manual and mention overrides, retry number, claim |
| ReviewState.CompetingClaimsHaveOneWinner | src/state.rs:1049-1087 | of two competing claims within the stale window, whatever they carry, the second loses |
| ReviewState.RetryDelayIs | src/state.rs:422-426 | the delay is 300 * 2^n up to six retries and six hours after that; it never shrinks and at most doubles |
| ReviewState.RetryDelayMonotone | src/state.rs:419-426 | more failures never mean a shorter wait |
| ReviewState.ManualStartsUnlessClaimed | src/daemon.rs:1163-1168 | an explicit request starts a review over any record, with a fresh count, if and only if no claim is live |
| ReviewState.MentionStartsIff | src/daemon.rs:1169-1175 | over an existing record a mention starts a review that is no retry if and only if no claim is live and it is newer than the record; an older one leaves at most the retry that was due anyway |
| ReviewState.PollStartsIff | src/state.rs:533-600 | without a request or a mention a new commit starts unless a claim is live, and the same commit if and only if it is a failed or interrupted one with a retry left and due; the retry is counted once |
| ReviewState.MigrationStaggers | src/state.rs:448-463 | exactly the failed records of the old format get a fresh count and a date five minutes to an hour and five minutes away; migrating again changes nothing |
| ReviewState.StartLeaves | src/daemon.rs:1194-1215 | a start leaves the new commit claimed now, with the old thread and the count that the attempt writes back if it is a retry |
| ReviewState.InterruptedIsRetried | src/state.rs:1021-1047 | an attempt that a restart interrupts is retried once its delay since the restart has passed, and not before; other records stay |
| ReviewState.ClaimsAgree | src/state.rs:1049-1087 | claiming with a bare record is the same transaction as the lock |
| ReviewState.FilledClaimIs | src/state.rs:1049-1087 | a granted claim stores the caller's record, in progress since now, with the old thread; only a retry of the same commit is counted on |
| ReviewState.SkipIsFinal | src/daemon.rs:1000-1046 | a skip is written exactly where an unlimited check would review; a poll never starts that commit again |
| ReviewState.KeyHashIs | src/state.rs:428-433 | the hash behind the jitter is the key read as a number to the base 31, modulo 2^64 |
| ReviewRuns.ClaimExclusion | src/state.rs:668-688 | over every run, a claim that overtakes another comes more than the stale window after it, and the migration happens at most once per key |
| ReviewRuns.BeginIsTimely | src/state.rs:548-571 | any stored record is a legal start of the budget invariant |
| ReviewRuns.RetryBudget | src/daemon.rs:1200-1208 | over every run with timely reports, the retries since the last reset stay within the limit and within the stored count, and each starts at least its own delay after the one before |
| ReviewRuns.RetriesAreBoundedAndSpaced | src/state.rs:551-582 | the same from any stored record: the budget, the gap before each retry, the summed time of the k-th, and no overlap of attempts within the stale window |
| ReviewRuns.RetryGap | src/state.rs:555-564 | in every step of such a run, a retry that starts after n others since the reset starts at least min(300 * 2^n, 21600) seconds after the last of them |
| ReviewRuns.SumDelayIs | src/state.rs:419-426 | the k delays sum to 300 * (2^k - 1), and to six hours more each after the seventh |
| ReviewRuns.ReviewedCommitIsLeftAlone | src/state.rs:551-596 | while no earlier attempt is still open, a reviewed or skipped commit is never started again by polls without a mention, over every run with restarts and skips |
| ReviewRuns.NewCommitStarts | src/state.rs:597-604 | a new commit starts at the next poll with a fresh budget, exactly unless a claim is live |
| ReviewRuns.MentionsAreOneShot | src/daemon.rs:762-780 | over every run that dates no report back, with mentions no later than the clock, the mentions that started a review are strictly increasing, so none starts two |
| ReviewRuns.TimelyRunsGoForward | src/daemon.rs:1422-1435 | a run with timely reports dates none of them back |
| ReviewRuns.FutureMentionsRepeat | src/daemon.rs:762-780 | every mention ahead of the clock starts a second review at any later clock once the first has failed |
| ReviewRuns.MentionRepeatsIff | src/daemon.rs:762-780 | in runs that date no report back, a mention that started a review at clock t can start another if and only if it is later than t |
| ReviewRuns.ThreadIsNeverLost | src/state.rs:624-633 | over every run the recorded thread is the first one or that of the last completion that brought one |
| ReviewDeadlines.StaleOutlastsReview | src/review.rs:442-474 | the stale window is at least fifteen minutes, and longer than the hard timeout by its grace unless it saturates |
| ReviewDeadlines.StaleIs | src/review.rs:449-473 | unless it saturates, the stale window is fifteen minutes and the limit of each enabled phase, of at most three |
| ReviewDeadlines.LateReportsOverspend | src/daemon.rs:1367-1399 | with any deadline past the stale window and any positive limit, a run the scheduler makes: a manual review outlives its claim, a poll retries its commit, its late failure erases the count, and polls start one retry too many |
| ReviewDeadlines.BudgetNeedsTimelyReports | src/state.rs:722-732 | over every run in which reports come within d of their claims, the limit is kept if and only if it is zero or d is no longer than the stale window |
| ReviewDeadlines.BackdatedReportsRepeat | src/daemon.rs:1422-1435 | with any deadline past the stale window, a finalization failure that dates the record back lets a past mention start a second review |
| ReviewDeadlines.MentionsNeedTimelyReports | src/daemon.rs:762-780 | over every run in which reports come within d of their claims, past mentions are one-shot if and only if d is no longer than the stale window |
| DecisionRuns.UndisturbedIsStart | src/daemon.rs:1151-1230 | a claim that finds the record its decision saw is the start that an uninterrupted job would make then |
| DecisionRuns.UndisturbedDecisionsKeepBudget | src/daemon.rs:1151-1230 | with decisions and claims in separate steps of any number of jobs and timely reports, if each claim finds the record its decision saw, the retries stay within the limit and keep their distances |
| DecisionRuns.DisturbedDecisionsOverspend | src/daemon.rs:1000-1046 | for every positive limit and with timely reports, a skip written between a decision and its claim erases the count and one retry too many starts |
| DecisionRuns.BudgetNeedsUndisturbedDecisions | src/daemon.rs:1151-1230 | without that condition on claims a limit is kept over every such run if and only if it is zero |
| DecisionRuns.InterleavedManualSkipsTheWait | src/daemon.rs:1151-1230 | a manual review that starts and fails between the decision and the claim of a poll lets the poll retry at once, while no decision made then would retry before the delay |
| ClaimRuns.ClaimsAreExclusive | src/state.rs:668-688 | over every interleaving of transactions of any jobs and keys, a claim that overtakes an open one comes more than the stale window after it |
| ClaimRuns.GrantKeeps | src/state.rs:1057-1076 | a claim of either kind is granted over an open one only when that one is stale |
| ClaimRuns.ClaimIsGrantedIff | src/state.rs:671-688 | for ages within 63 bits, a claim of either kind over a claim in progress is granted if and only if that claim is stale or dated ahead of the clock |
| ClaimRuns.BackwardClockOvertakes | src/state.rs:674-676 | with a clock that went back, every claim in progress dated ahead of it is overtaken by a claim of either kind |
| StateKeys.KeysParseBack | src/state.rs:349-364 | a key reads back as its repository and number if and only if the name passes the bar check |
| StateKeys.KeysAreDistinct | src/state.rs:251-257 | different reviews whose names pass the bar check have different keys, over default and scoped kinds together |
| StateKeys.KeysCollideOnBars | src/state.rs:251-257 | every scoped review whose kind ends in an underscore and a number shares its key with the default review of a name with bars, which fails the check |
| StateKeys.JoinIsInjective | src/state.rs:274-278 | the length-prefixed join of any number of arbitrary strings is injective |
| StateKeys.DisclosureKeysAreDistinct | src/state.rs:267-279 | no two different publications share a journal key |
| StateKeys.DisclosureMarker | src/disclose.rs:120-135 | the loop builds the marker: two hex digits for each byte of the key, in order |
| StateKeys.HexIsInjective | src/disclose.rs:129-133 | the hex encoding is injective |
| StateKeys.HexReadsBack | src/disclose.rs:129-133 | the two digits of each byte, the high one first, read back as that byte |
| StateKeys.MarkerShape | src/disclose.rs:134-134 | a marker opens with its only '<' and has no line break |
| StateKeys.MarkersAreUnambiguous | src/disclose.rs:439-439 | in a published body the marker of a key is found if and only if the body was published under that key or its text quotes the marker |
| Disclosure.AtMostOncePublication | src/finalizer.rs:80-119 | over every run with serial finalizers, crashes and lost replies: at most one post per key, journaled before it is made, and every finalizer about to post has an unposted key |
| Disclosure.AtMostOnceFromStart | src/finalizer.rs:80-119 | from an empty journal at most one post is ever made under any key |
| Disclosure.PublishedIsAbsorbing | src/state.rs:300-303 | a published receipt never changes again and nothing more is posted under its key |
| Disclosure.MarkerCountsItsPosts | src/disclose.rs:433-445 | unless someone quotes the marker, the posts that carry it are exactly those made under its key |
| Disclosure.SearchFindsFirst | src/disclose.rs:433-445 | the search answers with the first marked comment, and with the first marked review only if no comment is marked |
| Disclosure.OverlapPostsTwice | src/disclose.rs:502-540 | two finalizers that overlap on one key can post twice, for every key |
| PublicationRuns.OneIsOut | src/state.rs:668-688 | of two attempts of one review key at most one is within the stale window of its claim and has not reported |
| PublicationRuns.BeginIsSerial | src/finalizer.rs:80-87 | if no attempt is out for longer than the stale window, a finalizer begins only when no other one of the review key is at work |
| PublicationRuns.OverlapPostsTwice | src/finalizer.rs:80-119 | with any longer deadline, for every key a run of reviews and finalizers that posts twice |
| PublicationRuns.ClaimsKeepPublicationsSingle | src/finalizer.rs:80-119 | over every run of the reviews and finalizers of one review key with deadline d, every publication key gets at most one post if and only if d is no longer than the stale window |
| Finalizer.StructuredRoute | src/disclose.rs:295-381 | exactly when a review goes to the pull request, to the sync repository and to a local report; one with only duplicates goes to neither of the first two, except in sync mode |
| Finalizer.DisclosureJournal.BeginDisclosure | src/state.rs:281-319 | a new key is journaled and may publish, an open one may publish as a recovery, a published one returns its receipt |
| Finalizer.DisclosureJournal.FinishDisclosure | src/state.rs:321-347 | the receipt is stored under the key and nothing else changes |
| Finalizer.FindExistingDisclosure | src/disclose.rs:424-463 | the first marked comment, else the first marked review, or none; an unreadable history stops a recovery and only that |
| Finalizer.PostPrReview | src/disclose.rs:502-540 | search, lifecycle check and post are a run of the publication steps; the answer is the address of the post found, nothing if the pull request is closed, or the address of the one post made, and each failure has its error |
| Finalizer.ReceiptIsThePost | src/disclose.rs:519-540 | a receipt with an address is that of a post that carries the marker; one without means a closed pull request; at most one post is made, and none when one is found |
| Finalizer.Disclose | src/disclose.rs:233-285 | every route is a run of the publication steps and only the review route posts; a local report answers its path, a sync pull request its address, a skip nothing |
| Finalizer.Finalize | src/finalizer.rs:42-121 | one finalization is a serial run of the publication steps; the answer of the route is journaled if the write lands and returned if it is acknowledged; an error leaves the key open; a published key is reused untouched |
| Scheduler.ReviewScheduler.constructor | src/scheduler.rs:323-356 | the empty scheduler with its worker limit and queue capacity |
| Scheduler.ReviewScheduler.UpdateJob | src/scheduler.rs:484-500 | one job's status changes and no other |
| Scheduler.ReviewScheduler.DispatchReady | src/scheduler.rs:374-384 | starts the front of the queue until workers or work run out |
| Scheduler.ReviewScheduler.OnSubmission | src/scheduler.rs:427-460 | a duplicate gets the live job, a full queue refuses, fresh work goes before the retries |
| Scheduler.ReviewScheduler.OnJoined | src/scheduler.rs:407-426 | a finished job leaves the live structures, is listed as terminal with the status its handler returned, and the oldest terminal job past the limit is evicted |
| Scheduler.ReviewScheduler.OnCancelled | src/scheduler.rs:386-402 | queue and active set are drained into cancelled terminal jobs |
| SchedulerRuns.StatusesAgree | src/scheduler.rs:367-372 | queue, active set and terminal list hold exactly the jobs of their statuses |
| SchedulerRuns.StructuresAgree | src/scheduler.rs:367-372 | they are disjoint, without repeats, and together are the job table |
| SchedulerRuns.OneLiveJobPerTarget | src/scheduler.rs:432-436 | the target index is exactly the live jobs; a target has at most one, and a duplicate submission always finds it |
| SchedulerRuns.DispatchPicksFirst | src/scheduler.rs:374-384 | the next job to start is fresh if any fresh job waits, and the oldest of its class |
| SchedulerRuns.InsertKeeps | src/scheduler.rs:453-458 | insertion keeps fresh before retry and submission order within each |
| SchedulerRuns.DispatchKeeps | src/scheduler.rs:374-384 | dispatch keeps the agreement and leaves no worker idle while work waits |
| SchedulerRuns.SubmitKeeps | src/scheduler.rs:427-460 | a submission keeps the agreement |
| SchedulerRuns.SubmissionIs | src/scheduler.rs:432-460 | a submission answers with the live job of its target; without one it is refused if and only if the queue is full, and else listed under a new id and queued in its class |
| SchedulerRuns.CapacityIs | src/scheduler.rs:328-333 | the queue holds twice the workers, at least sixteen |
| SchedulerRuns.JoinKeeps | src/scheduler.rs:407-426 | a completion with its eviction keeps the agreement |
| SchedulerRuns.AgreementOverRuns | src/scheduler.rs:358-470 | at every select point of every run: agreement, limits, no idle worker, and starts in submission order per class |
| SchedulerRuns.StartAgrees | src/scheduler.rs:323-372 | the agreement holds at the start for every worker setting |
| SchedulerRuns.StartsAreRecorded | src/scheduler.rs:374-384 | over every run the history that the start order is stated on misses no start and takes none back |
| SchedulerRuns.JobsOnlyMoveForward | src/scheduler.rs:484-500 | over every run a job keeps its target, never moves back, keeps a final status, and never returns once evicted |
| SchedulerRuns.JoinedJobIs | src/scheduler.rs:410-421 | after a join the job is listed under exactly the status its handler returned and the target it ran for |
| SchedulerRuns.OutcomesAreKept | src/scheduler.rs:407-426 | over every run a job keeps what its handler returned for as long as it is listed |
| SchedulerRuns.JobsFinishOnce | src/scheduler.rs:407-426 | over every run no job finishes twice |
| SchedulerRuns.LastToFinish | src/scheduler.rs:502-512 | over every run the terminal list is the last thousand jobs to finish, in that order |
| SchedulerRuns.TableIsLastResults | src/scheduler.rs:407-426 | from the start on the finished jobs in the table are exactly the last thousand results, each as its handler left it |
| SchedulerRuns.ShutdownLeavesNothingLive | src/scheduler.rs:386-402 | after cancellation exactly the live jobs are cancelled and the terminal list is the whole table |
| Health.HealthHistory.Record | src/scheduler.rs:150-179 | the pruned window and the counters keep representing the whole history; other outcomes change nothing |
| Health.HealthHistory.Snapshot | src/scheduler.rs:181-219 | the report is the one the whole history would give, with its verdict, rate, counters and last failure |
| Health.WindowSlides | src/scheduler.rs:165-171 | filtering the pruned window later gives the last thousand recent attempts of the whole history |
| Health.SampleFrom | src/scheduler.rs:165-171 | a window in an ordered history is its sample |
| Health.StreakLengthIsLongest | src/scheduler.rs:154-178 | the counter is the longest suffix of failures without a pause over fifteen minutes |
| Health.VerdictIs | src/scheduler.rs:197-206 | each reason in terms of the history: three failures in a row without a pause and something recent, at least half of five or more recent attempts failed, a job waiting for ten minutes |
| Health.FiguresAre | src/scheduler.rs:181-219 | the reported counts, rate, streak and age in terms of the history |
| Health.LastIs | src/scheduler.rs:172-178 | the reported times and cause are those of the last attempt of their kind |
| Backlog.PendingPollReviews.Refresh | src/daemon.rs:188-210 | the refresh computes the specified backlog |
| Backlog.PendingPollReviews.Submit | src/daemon.rs:212-226 | exactly the accepted prefix is removed, and the first refusal is returned |
| Backlog.RefreshIsBacklog | src/daemon.rs:188-210 | each discovered target once with its latest payload, fresh before retry, deferred targets in their old order before new ones in discovery order |
| Backlog.BacklogIsUnique | src/daemon.rs:199-209 | that description leaves exactly one result |
| Mentions.Search | src/daemon.rs:641-664 | the loop computes the scan that jumps past each failed match |
| Mentions.MentionMatches | src/daemon.rs:637-640 | the scan is made on the lower-case text for "@" and the lower-case name without its leading "@" |
| Mentions.ScanIsSound | src/daemon.rs:641-662 | a hit is an occurrence with legal neighbours |
| Mentions.SearchIsExact | src/daemon.rs:637-665 | the search agrees with its description on every text if and only if the name does not overlap itself |
| Mentions.AccountNamesAreSearchable | src/daemon.rs:639-639 | every name without an inner '@' is such a name |
| Mentions.OverlappingNameExists | src/daemon.rs:661-661 | a name with an inner '@' that is missed in some text |
| Mentions.MentionMeans | src/daemon.rs:637-665 | for a name without an inner "@" the search succeeds if and only if the text has "@" and the name in any letter case, with no letter or digit before and no letter, digit or hyphen after |
| UsageScan.UsageScanner.FeedChunk | src/broker.rs:1046-1063 | one chunk: counting, the limit, and the complete lines of a stream |
| UsageScan.UsageScanner.ScanSseLine | src/broker.rs:1065-1074 | one line raises the totals to its own, which `EventStreams` gives in terms of what is parsed |
| UsageScan.UsageScanner.Observe | src/broker.rs:1086-1109 | the totals become the maximum with every usage object of a value |
| UsageScan.UsageScanner.FinishScan | src/broker.rs:1076-1084 | the rest is scanned, the buffer emptied and the totals returned |
| UsageScan.StreamIsChunkIndependent | src/broker.rs:1046-1084 | a stream's totals are those of one scan of the body for every chunking that fits |
| UsageScan.StreamOverflow | src/broker.rs:1051-1055 | at the first chunk that does not fit the totals freeze at the lines before it |
| UsageScan.WholeBodyIsChunkIndependent | src/broker.rs:1046-1084 | other bodies are parsed whole for every chunking; one that exceeds 8 MiB, and only such a one, is parsed as empty text |
| UsageScan.LinesTotalsIsMaximum | src/broker.rs:1106-1107 | the totals bound every line and are reached |
| UsageScan.BytesAreCounted | src/broker.rs:1046-1050 | every byte is counted, for every chunking and after the limit too |
| EventStreams.EventLineIs | src/broker.rs:1065-1074 | an event line contributes what its text alone parses to, whatever blanks surround it |
| EventStreams.OtherLineIsNothing | src/broker.rs:1069-1069 | a line without the prefix contributes nothing |
| EventStreams.StreamIsItsEvents | src/broker.rs:1046-1084 | a printed stream totals the maximum over its events, whether or not its last line is finished |
| EventStreams.ScanIsOfTheEvents | src/broker.rs:1046-1084 | and so it is charged, however it was cut into chunks that fit |
| EventStreams.EveryCounterCounts | src/broker.rs:1096-1107 | each of the nine counters adds its tokens once, on its side |
| Billing.Shared.Charge | src/broker.rs:445-460 | one charge adds one request, its tokens, its cost and, without a price, one unpriced request |
| Billing.ItemIs | src/broker.rs:445-460 | the cost of one response from its two prices per million tokens; without a price it costs nothing and counts as unpriced if and only if it used tokens |
| Billing.SumAdds | src/broker.rs:451-458 | the ledger adds the costs and counts the unpriced responses |
| Billing.ResponseStream.FinishOnce | src/broker.rs:996-1011 | the first end of a response charges what was scanned; later ends change nothing |
| Billing.LedgerIsTheBill | src/broker.rs:909-925 | over every interleaving of responses the ledger is the sum of the charges of those that ended |
| Billing.PriceIsOfTheBody | src/broker.rs:996-1005 | a charge depends on the body and not on its chunks |
| Billing.BillIsOfTheBodies | src/broker.rs:909-925 | when all have ended the ledger is the bill for the bodies and counts each once |
| DiffAnchors.ParseDiffAnchors | src/reporting.rs:851-885 | the loop collects the anchors that the line-by-line parser logs |
| DiffAnchors.HeaderReadsBack | src/reporting.rs:887-895 | the new start of every printed hunk header reads back |
| DiffAnchors.TrimPlusIs | src/reporting.rs:887-895 | every leading plus sign of a range is dropped |
| DiffExact.DiffIsLogged | src/reporting.rs:856-882 | on a printed plain diff the log is each added line in order, with markers counted |
| DiffExact.DeletedFileAddsNothing | src/reporting.rs:861-872 | after the line of a deleted file nothing is anchored until the next file line, whatever the lines say |
| DiffExact.AnchorsAreExact | src/reporting.rs:851-895 | for every well-formed printed diff the anchors are its added lines if and only if it is plain and unshifted |
| DiffExact.MarkerShiftsTheAddedLine | src/reporting.rs:879-881 | replacing a last line without a newline anchors line 2 instead of line 1, in every path |
| Paging.Inspect | src/inspection.rs:183-316 | bad ranges are refused; every other answer is the page, the hint to the next line and the truncation note, which `PagingHints` reads back |
| Paging.FillPage | src/inspection.rs:293-312 | the loop draws exactly the specified page and stops at the line after it |
| Paging.CutIsLongest | src/inspection.rs:298-304 | a cut line keeps the longest run of whole characters that fits |
| Paging.PageShows | src/inspection.rs:293-310 | each item is the next line, whole exactly if it fits, else its longest fit and the last item |
| Paging.CutFills | src/inspection.rs:297-304 | of a cut line exactly the beginnings are shown that end within the limit, or are empty |
| Paging.PageEnds | src/inspection.rs:293-310 | a page ends because its lines are taken, the source is out or its last line is cut; it is never empty before the end |
| Paging.PageIs | src/inspection.rs:293-310 | a page in closed form: the lines that fit one behind the other, and the next one cut if the page may hold it |
| Paging.WalkCovers | src/inspection.rs:311-313 | following the hints ends and visits every line exactly once in order |
| Paging.WalkPages | src/inspection.rs:311-313 | every page on the way is drawn as described |
| Paging.LineIsShown | src/inspection.rs:297-313 | following the hints, a line is shown whole if and only if it fits behind the lines of its page, and nothing of it is shown if and only if not even its first character does, or it has at most one; all from the sizes of the source lines |
| Paging.WalkIsWholeIff | src/inspection.rs:297-313 | following the hints shows every line whole if and only if in each block of `count` lines every line fits behind the numbered lines before it |
| Paging.LineVanishes | src/inspection.rs:297-309 | an instance: a line right after one that all but fills a page is shown on no page |
| Paging.AnswerFits | src/inspection.rs:290-316 | every answer is at most 64 KiB and 490 bytes |
| PagingHints.NotesAreReadable | src/inspection.rs:305-316 | neither note of the program can be taken for the other or for a hint |
| PagingHints.HintReadsBack | src/inspection.rs:311-313 | an answer carries a hint if and only if lines are left, and the number read from it asks for the page that starts where this one ends |
| PagingHints.FollowIsWalk | src/inspection.rs:183-316 | asking again at each number read from an answer gives the pages of the walk, one by one |
| PagingHints.NumberReadsBack | src/inspection.rs:310-310 | the number printed before a line reads back as its place in the source, and the line behind it |
| PagingHints.PageReadsBack | src/inspection.rs:293-310 | a page without a cut line reads back as the numbered source lines it stands for |
| Calibration.Calibration.Observe | src/jev.rs:65-76 | falls at once, rises by a tenth of the distance, ignores values that are not finite, and stays in range |
| Calibration.Calibration.ObserveUsage | src/jev.rs:78-82 | a response without tokens changes nothing |
| Calibration.Calibration.ObserveRejection | src/jev.rs:86-92 | afterwards the same request exceeds a limit if and only if its ratio is over 1.35 |
| Calibration.ObservedIs | src/jev.rs:65-76 | a lower value is taken over down to 1.5, a higher one up to 3.5 moves the rate a tenth of the way |
| Calibration.RejectedIs | src/jev.rs:86-92 | a rejection brings the rate to nine tenths of its bound or to 1.5, unless the rate is under the bound anyway |
| Calibration.ExceededNames | src/jev.rs:100-114 | which limit is named as exceeded |
| Calibration.PassesIff | src/jev.rs:100-114 | the two limits are one: a request passes if and only if its larger ratio is within the margin |
| Calibration.RejectionIsRemembered | src/jev.rs:84-96 | the rate stays in range and the rejected request is refused if and only if its ratio is over 1.35 |
| Calibration.RejectionBoundsTheRatio | src/jev.rs:84-88 | a limit is exceeded if and only if the true ratio is below the larger per-limit ratio |
| Calibration.RunsRiseSlowly | src/jev.rs:63-76 | over every run the rate stays in [1.5, 3.5] and n events raise it at most to 3.5 - (3.5 - c) * 0.9^n |
| Calibration.CeilingIsReached | src/jev.rs:63-76 | that bound is met exactly by runs of observations of at least 3.5 |
| Calibration.RejectedStaysRefused | src/jev.rs:84-96 | a rejected request is refused after every run whose ceiling stays under its ratio |
| Calibration.RejectionLasts | src/jev.rs:84-96 | every run of n events keeps a rejected request refused if and only if the ceiling of n events stays under its ratio |
| Calibration.NeverPasses | src/jev.rs:94-96 | a request is refused at every rate if and only if its ratio is over 3.15 |
| Subnets.Allocator.ReserveIndex | src/daemon.rs:488-507 | the first free index from the start, wrapping once; exactly that index is added |
| Subnets.Allocator.Drop | src/daemon.rs:471-479 | exactly the dropped index is freed |
| Subnets.ProbeVisitsEachOnce | src/daemon.rs:491-494 | the probe meets each of the 254 indices at exactly one offset |
| Subnets.StartsCoverThePool | src/daemon.rs:481-486 | the hashes are dealt out over the 254 indices in turn |
| Subnets.FirstFreeIsUnique | src/daemon.rs:491-499 | the result is determined by the start and the active set |
| Subnets.FailsOnlyWhenFull | src/daemon.rs:502-506 | probing fails if and only if all 254 indices are taken |
| Subnets.LiveIsActive | src/daemon.rs:441-479 | over every run of reservations and drops the live reservations are distinct and are the active set |
| Subnets.RefusedOnlyWhenFull | src/daemon.rs:441-450 | a reservation is refused if and only if 254 are live |

## Left out

- The commit-keyed table that completions also write, and the fields of a record that no decision reads.
- Stored records that do not parse: decisions and `lock_for_review` take them for absent, `try_claim` and recovery fail.
- Saturation of 64-bit timestamps and ages, and overflow of 32-bit line numbers and 64-bit token sums.
- ReviewRuns.RetryBudget: decision and claim are one step of these runs; `DecisionRuns` covers separate steps.
- Which timeouts are configured: the stale window is a parameter, of at least fifteen minutes where that matters.
- Attempts that end without writing anything, except by a crash, and queued records.
- A completed record is assumed to be dated between its claim and its write; the review itself is not modelled.
- A post without an address of its own: the search answers with that of the pull request, and a post's address here is what the search answers.
- A post that lands after its finalizer has given up: a lost reply is lost when the post is made.
- Posts under a key are assumed not to be deleted, and a history that can be read is assumed to be complete.
- The plain comment route of `src/disclose.rs`, reactions, Buzz threads, and whether a repeated sync pull request is idempotent.
- The findings and lifecycle facts that the route depends on are inputs.
- Cancellation is looked at once, before the journal is written; being cancelled later is a crash.
- Job times, errors and failure categories, and job ids beyond their counter.
- How a handler's answer becomes a status: an error counts as failed, and a join is given the status.
- A handler that panics: it would leave its target and active entry behind, and the model assumes that handlers return.
- Tokio channels, wakeups and liveness: each select arm is one step, and a submission still in the channel at shutdown is not a state.
- Health timestamps that go backwards; the failure rate is a real number and a failure's cause a text.
- JSON parsing: which usage objects a text holds is a parameter; only ASCII white space is trimmed.
- Billing.Shared.Charge: costs are real numbers, without rounding; the cost limit that stops requests is not modelled.
- Splitting text into lines: a diff and a source are given as lines; header words are separated by blanks only.
- DiffExact.AnchorsAreExact: paths that Git quotes or follows with a tab are not printed by the model, and no file line is added twice in one diff.
- Calibration.RunsRiseSlowly: floats are reals, so rounding is not modelled.
- Subnets.LiveIsActive: the hash of a machine name is a parameter, and the mutex makes each operation one step.
- Network, Git, sandbox, configuration and server code, and the adapters of the forges.
- The lanes, deduplication and rendering of findings, which are threshold checks and formatting.
