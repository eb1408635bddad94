# Subdux: verified models of the delivery, exactly-once and codec cores

Subdux is a self-hosted subscription tracker. This project models the parts of its server whose
promises span many calls, and proves those promises for every input, run or interleaving.

| file | what it models |
|---|---|
| `Outbox.dfy`, `OutboxLedger.dfy`, `OutboxSpacing.dfy` | the notification outbox as a state machine: rows, delivery logs, and workers that may stall, die or share an owner id; its delivery ledger and the spacing of claims |
| `DedupeKeys.dfy`, `Calendar.dfy`, `Text.dfy` | the dedupe key as text, civil dates at a fixed UTC offset, decimal numbers and string order |
| `Reminders.dfy` | when a reminder is due, for the scheduler and for the dispatcher, with each clock reading of both kept apart |
| `Countdown.dfy`, `CountdownDelivery.dfy`, `CountdownScans.dfy`, `CountdownDays.dfy` | a whole countdown of a manual-renew subscription among all other steps of the outbox; what deliveries and scans do to it |
| `OutboxService.dfy` | the service that executes all this: scan, enqueue, claim, dispatch, complete |
| `OutboxEffects.dfy`, `ReminderRules.dfy` | reference definitions written out in columns and in days, and that statements, scans and checks agree with them |
| `TaskLease.dfy`, `IdempotentWrite.dfy`, `RefreshTokens.dfy` | the background-task lease, the MCP idempotent writer, refresh-token rotation |
| `RateLimiter.dfy`, `SingleUseStore.dfy` | the fixed-window limiter with its purge, and the capped single-use stores |
| `IconUpload.dfy`, `ICalendar.dfy` | rebuilding an ICO file; TEXT escaping and line folding (sections 3.3.11 and 3.1 of RFC 5545) |
| `ChannelSecrets.dfy`, `DomainLists.dfy`, `RecoveryIndex.dfy` | masking and merging channel configurations, canonical domain lists, the failed-notification index |

Operations that change state are class methods or loops, each proved equal to a function of the
old state; the theorems are about runs of those functions. A claim and the read-back of the claimed
rows are two separate steps of the outbox, so everything holds whatever happens between them, and
`FinishStep(_, Abandoned, _)` covers crashes, cancellations and failed final statements.

What the proofs found about the code:

- The five-minute gap between two claims of a row depends on the clock reading a retry is scheduled
  with. Along a run the gap holds before every next claim exactly when each retry lands past the
  lease of the row's last claim or past its expiry (`GapHoldsExactlyWhenTimely`). Readings that lag
  the newest claim by at most ten minutes always satisfy this (`SmallLagIsTimely`); a completion
  that read its clock before a long stall does not (`StalledReadingBreaksTheGap`).
- A countdown that is scanned on each of its days gets a row for each of them exactly when no
  request for a day without a row meets a sent log that covers the day, and no other row exactly
  when no scan was stray (`ScannedCountdown`). A
  delivery can cause that only by sending a daily reminder on another daily day that has no row yet
  (`DeliveryKeepsCoverExactly`), so sending each on its own local day is enough
  (`TimelyScannedCountdown`). Claimed before midnight and sent after it, one day's reminder leaves
  the next day without a row (`DeliveryAfterMidnightSuppressesTheNextDay`).
- A row is dated by its insertion, its key by the scan. At every check that can follow, the
  dispatcher and the scheduler agree on the row itself, whatever becomes of the subscription, exactly
  when no midnight passed between the two, or the date is not in the key, or the row came too late to
  be sent at all (`AgreementOnTheRowExactly`). A days_before or due_day row counted before midnight
  and inserted after it is cancelled on its own insertion day (`CountedBeforeMidnight`); a scan that
  dates itself on the first day of a countdown and counts after midnight asks for a row beside the
  countdown's (`StrayScan`, `RequestIsForTheScanDay`).
- Without a midnight inside a scan or between a check and its send, a countdown always ends with
  exactly daysBefore + 1 rows (`UndisturbedCountdown`).
- The 36-hour expiry window covers the whole due day exactly for offsets of UTC-12 and east.
- The manual-renew end is dated in the server's zone by the scan and in the date's own by the
  dispatcher: for an end stored as midnight UTC the reminder is deliverable exactly at offsets that
  are not negative (`EndedReminderIsDeliveredExactly`, `MidnightEndIsTheSameDayExactly`).
- A renewal keeps other owners out until the end of the lease it replaces exactly when it does not
  end before it (`RenewalKeepsTheLeaseExactly`): a renewal with an older reading or a shorter ttl
  moves the deadline back. Over whole runs, no take-over can come before another owner's latest lease
  is over exactly when no renewal ends before such a lease (`TakeOversSafeExactlyIfRenewalsReach`);
  calls in each owner's clock order never do, whatever their ttls (`OrderedRenewalsReach`), calls
  out of it can (`OutOfOrderRenewalLetsTenuresOverlap`).
- The limiter's bound of twice the limit per window length is tight (`TwiceTheLimitIsReached`).

## Model

| member | source | states |
|---|---|---|
| OutboxLedger.Ledger | internal/service/notification_outbox.go:302-381 | after any run from an unworked table, under every interleaving and any clock readings, a row has at most one sent log and has one exactly when it is `sent`; sent logs + failed logs + the attempt in progress never exceed attempt_count; failed logs never exceed the effective limit; `failed` implies the limit was used up |
| OutboxLedger.RunKeeps | internal/service/notification_outbox.go:629-736 | the inductive invariant behind the ledger holds along every run: stale snapshots of a shared owner id can still report failures only within what the row's attempts pay for |
| OutboxLedger.StepKeeps | internal/service/notification_outbox.go:179-381 | every enqueue, expire, claim, re-read and completion keeps that invariant |
| OutboxLedger.FreshIsKept | internal/model/notification_models.go:27-69 | it holds of any table of pending rows nobody has attempted, with logs of older versions only |
| OutboxLedger.EnqueueKeeps | internal/service/notification_outbox.go:179-214 | inserting a row, or finding it present, keeps the ledger of all rows |
| OutboxLedger.ExpireKeeps | internal/service/notification_outbox.go:302-317 | expiring in bulk keeps the ledger although workers still hold some of the rows |
| OutboxLedger.ClaimKeeps | internal/service/notification_outbox.go:342-369 | re-claiming a row whose lock ran out keeps the ledger although the old worker is still alive |
| OutboxLedger.RereadKeeps | internal/service/notification_outbox.go:374-381 | reading claimed rows back later, possibly after a newer claim by the same process, keeps the ledger |
| OutboxLedger.FinishKeeps | internal/service/notification_outbox.go:395-421 | completing a job in any of its six ways, with any stale snapshot, keeps the ledger of every row |
| OutboxLedger.FinishKeepsTouchedRow | internal/service/notification_outbox.go:629-709 | in particular of the completed row: the log written is paid for by an attempt, and a row is failed for good only when its limit is used up |
| OutboxLedger.StepGrows | internal/service/notification_outbox.go:629-736 | no statement removes a row or changes what it was inserted with; a finished row and the number of its logs never change |
| OutboxLedger.FinishedForever | internal/service/notification_outbox.go:302-381 | a sent, failed, cancelled or expired row is the same row, with the same number of logs, after any further run |
| OutboxLedger.OneDeliveryPerReminder | internal/service/notification_outbox.go:62-95 | over any run of scans, workers and restarts a logical reminder has at most one row and at most one recorded delivery |
| OutboxLedger.RunKeepsKeys | internal/model/notification_models.go:44 | the unique index on the key stays satisfied by rows whose keys were built from their own fields |
| OutboxLedger.KeysMatchReminders | internal/service/notification_outbox.go:179-214 | a stored row's key equals a request's key exactly when the row stands for the requested reminder |
| OutboxLedger.RowReminder | internal/model/notification_models.go:27-48 | the reminder read from a stored key has the row's own user, subscription, channel type, trigger and day |
| OutboxLedger.EnqueueInsertsExactlyNewReminders | internal/service/notification_outbox.go:154-214 | a row is inserted exactly when no sent log covers the reminder and no row stands for it; otherwise nothing changes; afterwards one of the two holds |
| OutboxSpacing.ClaimsAreSpaced | internal/service/notification_outbox.go:319-366 | along any run with timely retry readings, successive claims of a row are at least the 5-minute lease apart, every claim adds one attempt, none happens at or after expires_at |
| OutboxSpacing.StepSpaces | internal/service/notification_outbox.go:342-369 | one step of anybody keeps the row unclaimable until its last lease has run out |
| OutboxSpacing.AttemptsFitTheLifetime | internal/service/notification_outbox.go:33 | (attempt_count - 1) * 5 min < expires_at - first claim |
| OutboxSpacing.SmallLagIsTimely | internal/service/notification_outbox.go:745-756 | clock readings no more than 10 minutes behind the newest claim are timely, because the shortest backoff is 15 minutes |
| OutboxSpacing.RetryKeepsTheGapExactlyWhenTimely | internal/service/notification_outbox.go:724-736 | the gap survives a retry if and only if the retry time is past the lease or past the expiry |
| OutboxSpacing.GapHoldsExactlyWhenTimely | internal/service/notification_outbox.go:319-366 | along a run, the gap before any possible next claim holds at every moment if and only if every retry in the run lands past the row's last lease or past its expiry |
| OutboxSpacing.StalledReadingBreaksTheGap | internal/service/notification_outbox.go:664-709 | a concrete five-step run in which two claims are one second apart |
| DedupeKeys.KeyIdentifiesReminder | internal/service/notification_outbox.go:62-95 | two keys are equal exactly when user, subscription, channel type, trigger, notify day and, where used, dedupe day are |
| DedupeKeys.KeyRoundTrip | internal/service/notification_outbox.go:62-86 | the six parts can be read back from the text of the key, for any channel type, colons included |
| DedupeKeys.KeyTextExactly | internal/service/notification_outbox.go:62-86 | the stored key letter by letter: version, ids, channel type, the trigger's word, the calendar dates of the two local days, the second for the two daily triggers only |
| DedupeKeys.DayTextReadsBack | internal/service/notification_outbox.go:62-86 | the printed date determines the day and is never mistaken for a trigger or a separator |
| Calendar.CivilDateIsInverse | internal/pkg/timezone.go:59-65 | every day number has a valid calendar date that counts back to it, leap years and years before 0 included |
| Calendar.DayTextRoundTrip | internal/service/notification_outbox.go:62-86 | a day printed as 2006-01-02 and parsed is the same day, for every year, negative ones included |
| Calendar.NormalizingKeepsTheDay | internal/pkg/timezone.go:59-65 | normalising a date keeps its local day and is idempotent, in a zone and in UTC |
| Calendar.DaysUntilIsDayDifference | internal/pkg/timezone.go:84-89 | truncating hours / 24 of two local midnights is the difference of the local days, in both directions |
| Calendar.DaysBeforeYearExactly | internal/service/notification_outbox.go:62-86 | years have the lengths of the Gregorian calendar, by its closed form |
| Calendar.DaysBeforeMonthExactly | internal/service/notification_outbox.go:62-86 | and so have months |
| Calendar.UnixEpoch | internal/service/notification_outbox.go:62-86 | day 719528 is the first of January 1970 |
| Calendar.FormatDateShape | internal/service/notification_outbox.go:62-86 | dates are printed as four, two and two digits |
| Text.DecimalRoundTrip | internal/service/notification_outbox.go:62-86 | a printed number holds digits only and parses to itself |
| Text.BlankIffTrimsToNothing | internal/service/notification_channel_security.go:78-88 | a text is blank exactly when trimming leaves nothing |
| Text.TrimExactly | internal/api/mcp_idempotency.go:186-203 | trimming takes off all white space at both ends and nothing else |
| Text.SpacesExactly | internal/api/mcp_idempotency.go:186-203 | which 25 characters are white space |
| Text.LessExactly | internal/service/ssrf_settings.go:170-172 | the sort order is that of the first difference |
| Reminders.DispatcherAgreesWithScheduler | internal/service/notification_outbox.go:423-601 | for all clock readings on both sides and however subscription and policy changed since, the dispatcher delivers a queued row exactly when it has not expired and a scan with the dispatcher's readings would ask for the reminder the row stands for by its insertion date |
| Reminders.AgreementOnTheRowExactly | internal/service/notification_outbox.go:374-601 | at every check there can be, its readings taken in order after the insertion, and for every later state of subscription and policy, the two sides agree on that very row if and only if it was inserted on the local day the scan dated itself, or its date is not in its key, or it was inserted too late to be sent at all |
| Reminders.InsertedOnTheScanDay | internal/service/notification_outbox.go:189-194 | a row stands for the reminder that was asked for exactly under that condition |
| Reminders.InsertedAfterMidnightDisagrees | internal/service/notification_outbox.go:541-551 | a row dated by one day and inserted in time on another is delivered by a check right after its insertion, for a subscription due on its notify day, although a scan with those readings would not ask for it |
| Reminders.TooLateForBothSides | internal/service/notification_scheduler.go:273-287 | past the notify day no later check delivers the row and no scan asks for its day |
| Reminders.TooLateMeansPastTheDay | internal/service/notification_outbox.go:189-194 | at UTC-12 and east, too late to be sent means inserted after the notify day |
| Reminders.DeliveredOnItsDayExactlyIfStillDue | internal/service/notification_outbox.go:524-601 | a job checked on the local day of its insertion, with subscription and policy unchanged, is delivered if and only if its trigger is still due, midnights inside the scan included |
| Reminders.SameDayReminderIsDelivered | internal/service/notification_scheduler.go:190-320 | a job inserted and checked on one local day, with its days counted on one local day by scan and check, is neither cancelled nor expired, for every offset of UTC-12 and east |
| Reminders.CountedBeforeMidnight | internal/service/notification_outbox.go:541-564 | a days_before or due_day job is delivered on its insertion day if and only if the scan counted its days on that day |
| Reminders.TriggerPinsTheDay | internal/service/notification_outbox.go:106-115 | days_before and due_day are due on one local day only |
| Reminders.StillDueMeansScheduled | internal/service/notification_scheduler.go:190-320 | a reminder is due at a reading exactly when a scan with that reading asks for it |
| Reminders.ExpiryWindowCoversTheDueDay | internal/service/notification_outbox.go:34 | the 36-hour window outlasts the due day if and only if the offset is at least -12 h |
| Reminders.ExpiryComesFirst | internal/service/notification_outbox.go:423-430 | a job is expired exactly from expires_at on, whatever the lookups say |
| Reminders.SameDaySameScan | internal/service/notification_scheduler.go:190-320 | a scan depends on each of its readings only through the local day |
| Reminders.ScheduledRequestShape | internal/service/notification_scheduler.go:190-320 | what any scan requests: its own subscription and channel, the scan's date as dedupe day, a notify day not before the day of counting |
| Reminders.SameReminderSameKey | internal/service/notification_outbox.go:58-95 | two requests have the same key exactly when they ask for the same reminder |
| Reminders.DeliveredEndingIsScheduled | internal/service/notification_outbox.go:566-601 | an ending_soon row the dispatcher accepts is asked for by a scan with its readings |
| Reminders.DeliveredBillingIsScheduled | internal/service/notification_outbox.go:524-564 | the same for days_before, due_day and manual_renew_daily |
| Reminders.ScheduledIsDelivered | internal/service/notification_outbox.go:423-601 | a row that such a scan would ask for is never cancelled or retried by the check |
| Reminders.OneTriggerPerCountdownDay | internal/service/notification_outbox.go:106-134 | a daily manual-renew countdown has exactly one trigger on each of days daysBefore..0 and none outside, with or without due-day reminders |
| Reminders.EndedReminderIsDeliveredExactly | internal/service/notification_outbox.go:453-466 | the reminder of a manual-renew end is delivered, before its expiry, if and only if the end shows the same day in the server's zone and in its own |
| Reminders.MidnightEndIsTheSameDayExactly | internal/service/notification_scheduler.go:146-188 | for an end stored as midnight UTC that is exactly at offsets that are not negative |
| Countdown.FullCountdown | internal/service/notification_scheduler.go:252-320 | among any other steps of the outbox and whatever logs there were before, a countdown whose days are all asked for has a row for each day in the end if and only if no request for a day without a row met a sent log that covers it; those are its only rows, daysBefore + 1 of them, if and only if in addition nothing that is for no day was asked for uncovered |
| Countdown.RowsFollowTheRequests | internal/service/notification_outbox.go:179-214 | at any moment of any run the rows of the plan are those of exactly the reminders asked for while uncovered |
| Countdown.ReminderIsAsked | internal/service/notification_outbox.go:154-214 | a request gives its reminder a row unless a sent log covers it, one however often it is repeated |
| Countdown.OthersAreAsked | internal/service/notification_outbox.go:179-214 | requests for other subscriptions, channel types, billing days or kinds of reminder never make or block a row of the countdown |
| Countdown.OtherStepsKeepRows | internal/service/notification_outbox.go:302-381 | expiring, claiming, reading back and completing add, remove and rename no row of it |
| Countdown.HeldBackIsLost | internal/service/notification_outbox.go:216-235 | a reminder held back once never gets a row |
| Countdown.NotHeldBackIsFilled | internal/service/notification_outbox.go:216-235 | a reminder asked for and not held back has its row from then on |
| Countdown.EnqueueDoes | internal/service/notification_outbox.go:179-214 | an enqueue appends its row exactly when no log covers the reminder and no row stands for it |
| Countdown.CoverIgnoresTheChannelRow | internal/service/notification_outbox.go:216-235 | whether a reminder is covered does not depend on which channel of the type asks |
| CountdownDelivery.TimelyCountdownIsFull | internal/service/notification_outbox.go:629-661 | under every interleaving of the outbox's steps, a countdown whose days are all asked for and whose daily reminders are sent on their own local day ends with a row for each day, and with no other row if and only if nothing stray was asked for |
| CountdownDelivery.DeliveryKeepsCoverExactly | internal/service/notification_outbox.go:629-661 | a delivery leaves every covered day with its row if and only if it is not a daily reminder of the countdown sent on another daily day that has no row |
| CountdownDelivery.WhatADeliveryCovers | internal/service/notification_outbox.go:216-235 | the log of a delivery covers exactly the days with the row's trigger and, for a daily reminder, the local day of sending |
| CountdownDelivery.StepKeepsCover | internal/service/notification_outbox.go:395-421 | every step of any worker keeps covered days with their rows, if it sends no daily reminder off its day |
| CountdownDelivery.RunKeepsCover | internal/service/notification_outbox.go:302-381 | so does every run |
| CountdownDelivery.DeliveryAfterMidnightSuppressesTheNextDay | internal/service/notification_outbox.go:216-235 | a five-step run in which a reminder sent after midnight holds back the next day's request for good |
| CountdownScans.ScannedCountdown | internal/service/notification_scheduler.go:108-324 | the same equivalences for scans over any subscriptions and channels, several of one type and midnights inside a scan included, with their requests interleaved in any way with each other and with all other steps |
| CountdownScans.TimelyScannedCountdown | internal/service/notification_scheduler.go:108-324 | such a countdown ends with one row per day and channel type if every delivered daily reminder is sent on its own local day, and with no other if no request was stray |
| CountdownScans.ScanRequestsFit | internal/service/notification_scheduler.go:190-320 | everything any scan asks for is for a billing reminder of the plan, on its own days at the plan's offset, or does not concern the plan |
| CountdownScans.ScanAsksForItsDay | internal/service/notification_scheduler.go:252-320 | a scan that sees the subscription and a channel of the type on a countdown day asks for that day |
| CountdownScans.OneRequestPerChannel | internal/service/notification_scheduler.go:276-320 | on each channel exactly one request on a countdown day and none outside |
| CountdownScans.RequestIsForTheScanDay | internal/service/notification_scheduler.go:273-292 | the request is that of a countdown day, namely of the day the scan is dated for, if and only if that day has the trigger that was counted |
| CountdownScans.StrayScan | internal/service/notification_scheduler.go:273-292 | the one scan for which it is not: dated on the first day of the countdown, counted after midnight as a daily day |
| CountdownScans.OneDayScansAreNotStray | internal/service/notification_scheduler.go:273-292 | scans that date and count on one local day ask for nothing but the days of the countdown |
| CountdownScans.WholeScanIsCarriedThrough | internal/service/notification_scheduler.go:108-324 | a scan that runs to its end enqueues everything whose message can be rendered |
| CountdownDays.UndisturbedCountdown | internal/service/notification_scheduler.go:108-324 | from end to end: scans that date, count and insert within one local day, deliveries that the dispatcher's check passed and that are recorded on the day the check read, leave exactly daysBefore + 1 rows, one per day, under every interleaving |
| CountdownDays.CheckedSendsAreOnTheirDay | internal/service/notification_outbox.go:395-421 | a daily reminder that was inserted on the day of its date, passed its check and was sent on the day of that check is sent on its own day |
| CountdownDays.CheckedSendIsOnItsDay | internal/service/notification_outbox.go:541-551 | the same for one delivery, with the worker's snapshot of the row |
| CountdownDays.StepKeepsDates | internal/service/notification_outbox.go:189-194 | rows keep the local day of their insertion as their date under every step |
| CountdownDays.ScanDatesItsRequests | internal/service/notification_scheduler.go:283-291 | a daily reminder a scan asks for carries the local day of the scan's date reading |
| OutboxService.FindDue | internal/service/notification_outbox.go:324-337 | the rows selected are claimable, in claim order, at most a batch, and no claimable row left out comes before one selected |
| OutboxService.FindFirst | internal/service/notification_outbox.go:324-337 | the first claimable row in query order, or none if there is none |
| OutboxService.NotificationOutbox.EnqueueRow | internal/service/notification_outbox.go:179-214 | appends the new row unless one sent log covers it or its key is present; never touches another row or a log |
| OutboxService.NotificationOutbox.ExpireDue | internal/service/notification_outbox.go:302-317 | a row changes exactly if it is pending or processing and its expiry is at or before now; it becomes expired and unlocked; no row that could be claimed changes, no open row stays overdue, and the number returned is that of the rows changed |
| OutboxService.NotificationOutbox.ClaimDue | internal/service/notification_outbox.go:319-381 | claims only ready rows (open, not overdue, due, not locked), leaves a ready one out only for a full batch of earlier ones or a cancelled context, touches no other row, and returns the claimed ones as they then stand |
| OutboxService.NotificationOutbox.ClaimRows | internal/service/notification_outbox.go:342-369 | each candidate is tested again: one taken meanwhile is left alone |
| OutboxService.NotificationOutbox.ReadBack | internal/service/notification_outbox.go:374-381 | returns every candidate row that this process holds, in id order, each once |
| OutboxService.NotificationOutbox.MarkRowSent | internal/service/notification_outbox.go:629-661 | status and log change together or not at all, guarded by owner and status |
| OutboxService.NotificationOutbox.MarkRowFailed | internal/service/notification_outbox.go:664-709 | retry or final failure, with its log, under the same guard |
| OutboxService.NotificationOutbox.CloseRow | internal/service/notification_outbox.go:711-722 | cancels or expires a held row without a log |
| OutboxService.NotificationOutbox.ReleaseRow | internal/service/notification_outbox.go:724-736 | puts a held row back without a log |
| OutboxService.NotificationOutbox.Dispatch | internal/service/notification_outbox.go:395-421 | of a held row: sent, with exactly one sent log, if and only if the check passes, its channel is found and the send succeeds; a failed send appends exactly one failed log with the error and leaves it pending, or failed after its last attempt; a failed lookup puts it back and a missing channel cancels it, both without a log; nothing else changes, and a row no longer held is left alone |
| OutboxService.NotificationOutbox.ProcessUserNotifications | internal/service/notification_scheduler.go:108-324 | the three nested loops and their memory of scheduled requests leave the tables as if every request had been rendered and enqueued in order, or every one before the first database failure; ReminderRules.ScanAsksExactly says which requests these are |
| OutboxService.NotificationOutbox.ScheduleOnce | internal/service/notification_outbox.go:154-177 | skipping a remembered request changes nothing, rendered or not, whichever channel of the type it came from |
| OutboxService.ScanRunsAsSteps | internal/service/notification_scheduler.go:108-324 | an undisturbed scan is a run of enqueue steps of the state machine |
| OutboxService.EnqueueSettles | internal/service/notification_outbox.go:154-214 | enqueueing twice is enqueueing once, and no enqueue unsettles another request |
| OutboxService.SettledIgnoresChannelRow | internal/service/notification_scheduler.go:228-246 | a second channel row of the same type adds nothing, which is why the per-scan memory may skip it |
| OutboxEffects.SweepExactly | internal/service/notification_outbox.go:302-317 | the sweep, column by column, against the plain definition of an overdue row |
| OutboxEffects.DueExactly | internal/service/notification_outbox.go:324-337 | the conditions of the sweep and of the claim query are those of overdue and of ready rows, boundaries included |
| OutboxEffects.OpenRowsAreOfFourKinds | internal/service/notification_outbox.go:302-337 | an open row is overdue, waiting, locked or claimable, and only ever claimable in the last case |
| OutboxEffects.ClaimExactly | internal/service/notification_outbox.go:342-369 | a claim changes five columns to a five-minute lock and one more attempt, and keeps the row unclaimable for these five minutes |
| OutboxEffects.NewRowExactly | internal/service/notification_outbox.go:179-214 | a new row is pending, due at once, unattempted, limited to five attempts and lives for 36 hours from its UTC day (a manual-renew end: from now) |
| OutboxEffects.NewRowIsReady | internal/service/notification_outbox.go:189-208 | it can be claimed at once unless its day was over 36 hours ago |
| OutboxEffects.CoverExactly | internal/service/notification_outbox.go:136-152 | in days: a sent log of the subscription and channel type covers a request exactly if the days agree, the trigger agrees or the log has none (ends need it), and, where the date is in the key, it was sent on that local day |
| OutboxEffects.UndatedRequest | internal/service/notification_outbox.go:179-184 | without a date for its key a request is dated by its UTC day |
| OutboxEffects.CoverByOneLog | internal/service/notification_outbox.go:216-235 | being covered is being covered by one log |
| OutboxEffects.FinishExactly | internal/service/notification_outbox.go:629-756 | what each ending leaves of a held row and which log it writes, with the waits of 15, 30, 60 and 180 minutes and the limit of five attempts written out |
| ReminderRules.ScanAsksExactly | internal/service/notification_scheduler.go:140-320 | for every subscription, renewal mode and channel a scan asks for exactly what the rules in plain days want: days_before, due_day and manual_renew_daily by days to the billing day, ending_soon by days to the period end, manual_renew_ended for ended ones |
| ReminderRules.BillingExactly | internal/service/notification_scheduler.go:252-320 | for one subscription on one channel: days_before exactly that many days ahead, due_day exactly on the billing day if wanted, manual_renew_daily on the remaining days of a manual renewal if wanted, with their dates |
| ReminderRules.EndingExactly | internal/service/notification_scheduler.go:190-250 | ending_soon exactly for subscriptions that cancel at their period end, on its warning day and, if wanted, its last day |
| ReminderRules.EndedExactly | internal/service/notification_scheduler.go:146-188 | one request for each ended subscription with an end and reminders on |
| ReminderRules.TriggersForExactly | internal/service/notification_outbox.go:106-134 | the trigger lists hold exactly the triggers of the rules, for each renewal mode |
| ReminderRules.ScanLeavesExactly | internal/service/notification_scheduler.go:140-324 | after a scan the table has exactly the keys it had and those of its rendered requests no log covers; earlier rows stay, in place |
| ReminderRules.BillingCheckExactly | internal/service/notification_outbox.go:423-564 | the check delivers a billing row if and only if it is not overdue, the subscription still wants reminders, its day is the row's, the row was inserted today if daily, and the rule of its trigger holds; without a stored policy by the default of 3 days |
| ReminderRules.EndingCheckExactly | internal/service/notification_outbox.go:423-601 | the same for ending_soon |
| ReminderRules.EndedCheckExactly | internal/service/notification_outbox.go:448-466 | the same for manual_renew_ended |
| ReminderRules.OtherChecksExactly | internal/service/notification_outbox.go:423-522 | a check expires a row exactly if it is overdue, puts it back exactly if a lookup it needs fails, and cancels it for a missing subscription |
| ReminderRules.SweepAgreesWithCheck | internal/service/notification_outbox.go:302-430 | at one reading the sweep expires an open row exactly if the check would |
| TaskLease.LeaseTable.TryAcquire | internal/service/background_task_lease.go:20-55 | insert-or-take-over is one atomic acquire of the table |
| TaskLease.TenuresDoNotOverlap | internal/service/background_task_lease.go:20-55 | in any sequence of acquires by any owners, a different owner's later acquire is at or after the end of the earlier owner's latest lease, if each owner's calls apply in its clock order |
| TaskLease.AcquiresAreInClockOrder | internal/service/background_task_lease.go:38-54 | per-owner clock order forces global clock order of the successful acquires of a task |
| TaskLease.RowShowsLastHolder | internal/service/background_task_lease.go:38-54 | the row always shows the last successful acquire |
| TaskLease.RenewalKeepsTheLeaseExactly | internal/service/background_task_lease.go:38-54 | after an owner's renewal of a held row, every acquire by another owner is at or after the old deadline if and only if the new one is not earlier |
| TaskLease.TakeOversSafeExactlyIfRenewalsReach | internal/service/background_task_lease.go:20-55 | in any run, at no moment can an owner take a task over before every other owner's latest lease of it is over, if and only if every renewal in the run ends no earlier than those leases |
| TaskLease.CallKeepsRowsExactly | internal/service/background_task_lease.go:38-54 | from a table whose rows outlast all latest leases, a call keeps it so if and only if it does not renew too short |
| TaskLease.SafeExactlyIfRowsOutlast | internal/service/background_task_lease.go:38-54 | take-overs are safe at a moment exactly when each task's row runs as long as every owner's latest lease |
| TaskLease.OrderedRenewalsReach | internal/service/background_task_lease.go:20-55 | calls applied in each owner's clock order renew far enough, whatever their ttls |
| TaskLease.LateRenewalShortensTheLease | internal/service/background_task_lease.go:38-54 | a run with one ttl throughout in which a renewal with an older reading lets another owner in before the first deadline |
| TaskLease.OutOfOrderRenewalLetsTenuresOverlap | internal/service/background_task_lease.go:38-54 | a run in which one owner's calls apply out of its clock order and the tenures of two other owners overlap |
| IdempotentWrite.McpStore.RunIdempotentWrite | internal/api/mcp_idempotency.go:58-166 | mutation, audit row and record commit together or leave the store as it was |
| IdempotentWrite.CommitOrNothing | internal/api/mcp_idempotency.go:86-165 | a call either commits, adding one record under its key, or changes nothing at all; no record is ever overwritten |
| IdempotentWrite.RunIsFirstSuccesses | internal/api/mcp_idempotency.go:86-165 | a run with retries, replays, key misuse and failures leaves the database of its first successful calls per (user, key), in order |
| IdempotentWrite.OnlyEffectiveCallsMatter | internal/api/mcp_idempotency.go:86-165 | dropping every call that did not commit changes nothing in the final state, records, audit rows and post-commit effects included |
| IdempotentWrite.EffectiveKeysAreDistinct | internal/service/idempotency.go:25-42 | no two committed calls share a key, nor use one recorded before |
| IdempotentWrite.RecordsArePermanent | internal/service/idempotency.go:40-42 | a record is never changed or removed by later calls |
| IdempotentWrite.RetryIsAnsweredFromTheRecord | internal/api/mcp_idempotency.go:86-101 | whatever ran in between, a matching retry returns the first result, a mismatching one is rejected, and neither changes anything |
| IdempotentWrite.RetryIsAnsweredExactly | internal/api/mcp_idempotency.go:86-101 | over whole runs, with a collision-free hash: a call under a recorded user and key changes nothing, gets the first result if tool and arguments other than the key are the same, and is rejected as misuse of the key if they are not |
| IdempotentWrite.HashIdentifiesRequest | internal/api/mcp_idempotency.go:236-255 | two admitted calls have the same hash exactly if tool and arguments other than the key agree |
| IdempotentWrite.AdmitExactly | internal/api/mcp_idempotency.go:58-81 | a call reaches its transaction exactly if its key is a text that is neither blank nor over 255 octets, its arguments are known to the tool, it can be hashed and the audit setting can be read; its key is the trimmed text |
| IdempotentWrite.CommitExactly | internal/api/mcp_idempotency.go:103-165 | a commit writes its mutation, one audit row if auditing is on, its own record, and afterwards its one side effect if it has any |
| IdempotentWrite.UnreadableAnswers | internal/api/mcp_idempotency.go:86-101 | a stored answer that cannot be read is an internal error and runs nothing again |
| IdempotentWrite.FailuresAreAnswered | internal/api/mcp_idempotency.go:171-180 | which answer each failure gets, and that it leaves nothing |
| RefreshTokens.RefreshTokenStore.IssueToken | internal/service/auth_session.go:28-54 | a login adds one token unless its hash is taken |
| RefreshTokens.RefreshTokenStore.RefreshSession | internal/service/auth_session.go:56-137 | rotates exactly when the token is known, live, unexpired and of an active account; a collision of the new hash undoes the revocation |
| RefreshTokens.RefreshTokenStore.EndSession | internal/service/auth_session.go:139-152 | revokes the presented token if it is live and nothing else |
| RefreshTokens.RefreshTokenStore.RevokeAllOf | internal/service/auth_session.go:154-159 | revokes exactly the user's live tokens |
| RefreshTokens.OneLiveTokenPerLogin | internal/service/auth_session.go:56-137 | in every run each login lineage has at most one live token and each token at most one successor |
| RefreshTokens.NextIsSound | internal/service/auth_session.go:28-159 | every login, refresh, logout and revoke-all keeps lineages sound: only the latest token of a login may be live, parents are retired, hashes differ |
| RefreshTokens.RefreshConservesLiveTokens | internal/service/auth_session.go:71-130 | no user's number of live tokens changes by any refresh, successful or not |
| RefreshTokens.RevokeAllIsFinal | internal/service/auth_session.go:154-159 | after revoke-all, no earlier token of the user and nothing descended from one is ever live or refreshes again, whatever follows |
| RefreshTokens.DeadLoginsStayDead | internal/service/auth_session.go:56-159 | a lineage with no live token never gets one, and rows keep owner, hash and lineage |
| RefreshTokens.RefreshExactly | internal/service/auth_session.go:56-137 | a refresh succeeds exactly if the presented hash has an unrevoked row in time of a user who is not disabled, and the new hash is free; that row is revoked and stamped, one live row is appended, no other changes |
| RefreshTokens.FreshTokenWorksOnce | internal/service/auth_session.go:56-137 | a token just issued is exchanged at its first use in time and never at a second |
| RefreshTokens.IssueExactly | internal/service/auth_session.go:28-54 | a login appends one unrevoked row with its user, hash and expiry |
| RefreshTokens.LogoutExactly | internal/service/auth_session.go:139-152 | exactly the presented token's unrevoked row is revoked and stamped |
| RefreshTokens.RevokeAllExactly | internal/service/auth_session.go:154-159 | exactly the user's unrevoked rows are revoked |
| RateLimiter.FixedWindowLimiter.Allow | internal/api/security_middleware.go:44-74 | one decision of the limiter, empty keys and limits below one included |
| RateLimiter.FixedWindowLimiter.MaybeCleanup | internal/api/security_middleware.go:78-90 | on every 200th operation deletes exactly the entries idle for more than three windows, and otherwise nothing |
| RateLimiter.PurgeIsInvisible | internal/api/security_middleware.go:78-90 | over any calls in clock order the purge changes no decision, compared with a limiter that never purges |
| RateLimiter.AllowKeepsCover | internal/api/security_middleware.go:44-90 | one call decides alike on both tables and keeps every difference between them irrelevant |
| RateLimiter.AtMostTwiceTheLimit | internal/api/security_middleware.go:44-74 | after any history, any stretch of calls no longer than a window lets a key through at most twice the limit |
| RateLimiter.WithinOneWindow | internal/api/security_middleware.go:58-73 | until its window ends, a key gets through at most as often as the window has room |
| RateLimiter.TwiceTheLimitIsReached | internal/api/security_middleware.go:44-74 | for every limit and window some calls within one window length reach twice the limit |
| RateLimiter.WindowsDecideExactly | internal/api/security_middleware.go:44-90 | against the definition of fixed windows over a key's call times: a call gets through exactly if it opens a window or is among the first limit calls of it, in any run of any keys, purges included |
| RateLimiter.VisitTracks | internal/api/security_middleware.go:58-73 | an entry always sums up the key's calls: its window's opening, and how many got through |
| RateLimiter.PurgeExactly | internal/api/security_middleware.go:78-90 | removes exactly the entries not called for more than three window lengths |
| RateLimiter.EveryCallIsSeen | internal/api/security_middleware.go:44-90 | every call notes its time, other keys change only in a purge, and a purge happens only on a 200th operation |
| SingleUseStore.CleanupExpired | internal/service/reauth.go:245-252 | keeps exactly the unexpired entries |
| SingleUseStore.FindOldest | internal/service/reauth.go:259-272 | an entry no other is older than |
| SingleUseStore.EnforceLimit | internal/service/reauth.go:254-273 | makes room for one more, and evicts only entries no survivor is older than |
| SingleUseStore.Store.Put | internal/service/passkey.go:553-566 | cleanup, eviction, then the new entry |
| SingleUseStore.Store.Take | internal/service/oidc.go:779-832 | cleanup, then the entry leaves the store as it is returned |
| SingleUseStore.ReauthTickets.MintTicket | internal/service/reauth.go:222-243 | the ticket is stored for its user and operation with the 5-minute lifetime |
| SingleUseStore.ReauthTickets.Consume | internal/service/reauth.go:194-220 | a presented ticket is spent whether or not it fits the caller |
| SingleUseStore.CapHolds | internal/service/reauth.go:254-273 | the store never exceeds its cap in any run |
| SingleUseStore.TakenOnceInTime | internal/service/passkey.go:568-590 | a take yields only what one earlier put stored, within its lifetime, and no token is yielded twice in a run |
| SingleUseStore.ConsumeOnlyForItsScope | internal/service/reauth.go:194-220 | a ticket authorises only the user and operation it was minted for, within its lifetime, and is gone afterwards |
| SingleUseStore.EntriesComeFromPuts | internal/service/reauth.go:222-243 | everything stored was put by an earlier call and not taken since |
| SingleUseStore.Survives | internal/service/reauth.go:254-273 | with distinct mint times, a ticket neither spent nor expired survives any cap - 1 later mints |
| SingleUseStore.PutKeepsTheYoung | internal/service/oidc.go:850-892 | an eviction never reaches an entry with fewer than cap newer ones, the one being stored included |
| SingleUseStore.FreshTicketIsAccepted | internal/service/reauth.go:194-273 | in any run, a ticket presented first by its own user for its own operation within its lifetime, with fewer than cap later mints, is accepted |
| SingleUseStore.ConsumeExactly | internal/service/reauth.go:194-220 | accepted exactly if stored, in time, and minted for this user and operation; gone afterwards in any case |
| SingleUseStore.TakeExactly | internal/service/oidc.go:779-832 | yields an entry exactly if it is stored and in time, and keeps every other one in time |
| SingleUseStore.PutExactly | internal/service/passkey.go:553-621 | drops entries in time only for want of room and only if none kept is older |
| IconUpload.SanitizeICOFile | internal/service/icon_upload_validation.go:156-252 | the loops over byte offsets, the reused 16-byte buffer and the running data offset produce exactly the specified file or error |
| IconUpload.CollectEntries | internal/service/icon_upload_validation.go:173-208 | keeps exactly the entries with in-range data, a PNG signature, a successful decode and positive dimensions, in order |
| IconUpload.RebuildKeepsExactly | internal/service/icon_upload_validation.go:156-252 | of any upload exactly the pictures that lie behind the directory and inside the file, carry the PNG signature and decode to an area are kept, re-encoded, in order; it is refused exactly if the directory is empty or cut short, nothing is left, or a size or offset would not fit 32 bits |
| IconUpload.KeptEntries | internal/service/icon_upload_validation.go:173-208 | the kept indices ascend and are all that qualify, by the bytes of the directory |
| IconUpload.EntryExactly | internal/service/icon_upload_validation.go:173-208 | one directory entry qualifies exactly by its bytes and its decoding, and is kept with the re-encoded data and with 0 for sides of 256 and more |
| IconUpload.BuiltFileHolds | internal/service/icon_upload_validation.go:217-252 | the new file's entry points at its data and says one plane and 32 bits |
| IconUpload.FillEntry | internal/service/icon_upload_validation.go:224-243 | overwrites every byte of the reused buffer |
| IconUpload.WriteDirectory | internal/service/icon_upload_validation.go:217-245 | succeeds exactly when every size and offset fits 32 bits, and then writes header and directory |
| IconUpload.RebuiltFileReadsBack | internal/service/icon_upload_validation.go:217-252 | the rebuilt file reads back as exactly the cleaned images in order; their data tiles the bytes from 6 + 16n to the end with no gap or overlap |
| IconUpload.SanitizeIsIdempotent | internal/service/icon_upload_validation.go:156-252 | sanitising a sanitised file returns it unchanged, if PNG re-encoding is stable on its own output |
| IconUpload.EntriesAreClean | internal/service/icon_upload_validation.go:173-208 | every kept entry holds a cleaned picture and its true dimension bytes |
| IconUpload.EntryReadsBack | internal/service/icon_upload_validation.go:173-208 | the reader accepts every entry the writer wrote |
| IconUpload.U32RoundTrip | internal/service/icon_upload_validation.go:261-266 | a number that fits 32 bits survives little-endian writing and reading |
| ICalendar.PassesAreOneMap | internal/service/calendar.go:205-214 | the five sequential passes equal one independent replacement per character |
| ICalendar.IcalEscape | internal/service/calendar.go:205-214 | the result is one independent replacement per character, holds neither CR nor LF nor any bare reserved character, and reads back as the text with CR removed |
| ICalendar.UnescapeOfEscapeEach | internal/service/calendar.go:205-214 | unescaping returns the text with CR removed |
| ICalendar.EscapedTextHasNoLineBreak | internal/service/calendar.go:205-214 | escaped text holds neither CR nor LF |
| ICalendar.NothingIsLeftBare | internal/service/calendar.go:205-214 | a strict reader, which refuses any bare reserved character, reads the escaped text back as the text without CR |
| ICalendar.IcalFold | internal/service/calendar.go:216-234 | the loop with its octet counter folds exactly as specified |
| ICalendar.UnfoldOfFoldFrom | internal/service/calendar.go:216-234 | unfolding returns the unfolded line |
| ICalendar.FoldedLinesFit | internal/service/calendar.go:216-234 | every physical line has at most 75 octets, the continuation space included |
| ICalendar.FoldExactly | internal/service/calendar.go:216-234 | a line is broken only if it is longer than 75 octets, and then only where the next character would not fit |
| ICalendar.FoldedLinesAreFull | internal/service/calendar.go:222-233 | every physical line but the last is full |
| ICalendar.Utf8Exactly | internal/service/calendar.go:222-233 | the octets counted are those of UTF-8 |
| ICalendar.LinesNeverSplitACodePoint | internal/service/calendar.go:216-234 | cutting the UTF-8 bytes at CR LF gives the encodings of the character lines: no line ends inside a code point |
| ICalendar.FeedLineReadsBack | internal/service/calendar.go:205-234 | for every text: fits, splits no code point, unfolds, and unescapes to the text without CR |
| ChannelSecrets.SanitizeConfig | internal/service/notification_channel_security.go:64-101 | blanks exactly the filled secrets and headers and lists them sorted |
| ChannelSecrets.MergeConfig | internal/service/notification_channel_security.go:103-168 | field by field: cleared, replaced, or kept from the stored configuration |
| ChannelSecrets.MergeSecrets | internal/service/notification_channel_security.go:127-158 | touches secret fields only |
| ChannelSecrets.MergeHeaderValues | internal/service/notification_channel_security.go:202-249 | keeps the incoming header names and restores blank values from the stored ones |
| ChannelSecrets.MaskThenMergeIsIdentity | internal/service/notification_channel_security.go:64-168 | masking a configuration and merging the mask back with nothing cleared restores it exactly, for every channel type and header map |
| ChannelSecrets.UntouchedSecretsSurvive | internal/service/notification_channel_security.go:103-168 | in any merge a secret neither cleared nor replaced keeps its old value |
| ChannelSecrets.UntouchedHeadersSurvive | internal/service/notification_channel_security.go:202-249 | so does a webhook header sent back blank |
| ChannelSecrets.MaskHidesSecrets | internal/service/notification_channel_security.go:64-101 | configurations that differ only in the text of their secrets look the same to the client |
| ChannelSecrets.SecretMergesExactly | internal/service/notification_channel_security.go:127-158 | a secret after a merge: empty if cleared, what came in if that is not blank, else the stored one |
| ChannelSecrets.HeadersMergeExactly | internal/service/notification_channel_security.go:202-249 | webhook headers after a merge: those that came in by name, each by the rule of secrets; without a header object as stored |
| ChannelSecrets.OtherFieldsMergeExactly | internal/service/notification_channel_security.go:103-168 | every other field is as it came in |
| ChannelSecrets.MaskExactly | internal/service/notification_channel_security.go:64-101 | filled secrets and headers are shown empty, everything else as it is |
| ChannelSecrets.SecretsExactly | internal/service/notification_channel_security.go:14-30 | which field of which channel type is a secret |
| ChannelSecrets.EveryTypeHasSecrets | internal/service/notification_channel_security.go:14-30 | each of the fifteen channel types has secret fields, and no other type has |
| DomainLists.ParseDomainList | internal/service/ssrf_settings.go:148-173 | the loop with its seen set returns the specified list or error |
| DomainLists.ParsedListIsCanonical | internal/service/email_domain_whitelist.go:35-62 | refused exactly when some part is; otherwise strictly sorted, duplicate-free, and exactly the domains of the parts |
| DomainLists.SavedListIsCanonical | internal/service/ssrf_settings.go:132-146 | a saved list parses to what the raw list parses to, and saving it again changes nothing, for all three kinds of list |
| DomainLists.CanonicalDomainIsStable | internal/service/icon_proxy_settings.go:62-87 | a normalised domain normalises to itself and holds no separator |
| DomainLists.FieldsOfJoin | internal/service/ssrf_settings.go:311-313 | joining by newline and splitting again returns the list |
| DomainLists.CollectHoldsTheParts | internal/service/icon_proxy_settings.go:33-60 | after any number of parts: an error exactly if one was refused, else their distinct domains |
| DomainLists.DomainExactly | internal/service/ssrf_settings.go:175-227 | a part is accepted as a domain exactly if, trimmed and in lower case, it reads as labels of 1 to 63 host characters joined by dots, by the further rules of its list; skipped exactly if only dots (and at signs) are left |
| DomainLists.NameExactly | internal/service/email_domain_whitelist.go:78-109 | the checks on a whole name accept exactly these |
| DomainLists.SavedExactly | internal/service/ssrf_settings.go:132-146 | a list is saved exactly if no part is refused and its text has at most 500 octets |
| DomainLists.SavedTextExactly | internal/service/ssrf_settings.go:132-146 | a saved text holds host characters, dots and newlines only |
| DomainLists.FieldsExactly | internal/service/ssrf_settings.go:311-313 | a text falls apart at newlines, commas and semicolons and nowhere else |
| RecoveryIndex.NotificationRecoveryIndex | internal/service/subscription_actions_center.go:460-481 | the latest-success map answers the lookup over the whole log for every failure in the window, although it holds only deliveries of the window |
| RecoveryIndex.NotificationFailureActions | internal/service/subscription_actions_center.go:372-409 | the loop with its seen set and the active filter report, in scan order, the newest scanned failure of each key unless it is recovered |
| RecoveryIndex.OnePassEqualsTheLookups | internal/service/subscription_actions_center.go:372-409 | on every log of the fifteen channel types there are, the one pass reports exactly the keys for which a per-failure lookup finds some scanned failure unrecovered |
| RecoveryIndex.KnownTypesAreSeparate | internal/service/notification_validation.go:118-125 | no two of those types differ only in surrounding white space |
| RecoveryIndex.OnePassAgreesExactlyForSeparateChannels | internal/service/subscription_actions_center.go:574-580 | that is all the agreement needs of the types: for a set of types it holds on every log if and only if no two differ only in surrounding white space |
| RecoveryIndex.CollidingChannelsDisagree | internal/service/subscription_actions_center.go:483-485 | of the two keys, one trims the type and the other does not: two spellings that trim alike would hide a failure |
| RecoveryIndex.OpenActions | internal/service/subscription_actions_center.go:396-409 | always: one action per key, for its newest scanned failure, and only if that one is unrecovered |
| RecoveryIndex.ScannedAreTheNewest | internal/service/subscription_actions_center.go:375-378 | the scanned failures are in the window, newest first, and any left out are no newer, beyond a hundred |
| RecoveryIndex.ActionKeyIdentifies | internal/service/subscription_actions_center.go:574-580 | two action keys are equal exactly when the subscriptions and the trimmed channel types are |
| RecoveryIndex.RecoveryKeyIdentifies | internal/service/subscription_actions_center.go:483-485 | two recovery keys are equal exactly when the subscriptions and the channel types are |
| RecoveryIndex.ActionsExactly | internal/service/subscription_actions_center.go:372-457 | an action is shown exactly if its subscription is active, it is the newest scanned failure of its key and no later delivery went out on its subscription and channel |
| RecoveryIndex.ShownExactly | internal/service/subscription_actions_center.go:412-424 | the filter keeps exactly the actions of active subscriptions |
| RecoveryIndex.ShownInOrder | internal/service/subscription_actions_center.go:412-424 | in the order of the scan |

## Left out

- Message rendering, templates, channel senders, SMTP and outbound HTTP: rendering succeeds or fails, a send is an ok or error result, and a rendering error at dispatch counts as a send error.
- Lookups of subscription, policy and channel during dispatch are parameters (found, not found, failed), and so is what a scan's queries return, the candidates for manual_renew_ended included; a claim, a completion and an enqueue are each one atomic statement or transaction, as the database makes them; the SQL engine itself is not modelled.
- OutboxService.NotificationOutbox.ClaimDue: one batch without other processes' statements in between; the runs of the state machine claim and read back row by row with anything in between.
- OutboxService.NotificationOutbox.ProcessUserNotifications: lifecycle reconciliation and failures of the initial queries come before it; statements of other processes during a scan are in CountdownScans.ScannedCountdown, which takes its requests one by one.
- Deleting rows, logs, subscriptions or users, and schema migrations: the outbox state machine has no such step.
- Daylight saving time and named zones: a location is a fixed offset. Times are whole seconds. Each call in a run of an in-memory store reads the clock once.
- Subscription status, renewal mode and trigger are enums and channel types are strings in canonical form; rolling billing dates forward is in code outside the modelled files.
- CountdownScans.ScannedCountdown: one billing date; the subscription and its policy stay as they are for the length of the countdown.
- OutboxSpacing.ClaimsAreSpaced: assumes that every retry is timely; OutboxSpacing.GapHoldsExactlyWhenTimely shows that this is exactly what the gap needs.
- TaskLease.TenuresDoNotOverlap: assumes that each owner's acquires apply in the order its clock was read; TaskLease.TakeOversSafeExactlyIfRenewalsReach gives the exact condition without.
- RateLimiter.PurgeIsInvisible: assumes that calls apply in clock order.
- SingleUseStore.Survives: assumes distinct creation times; with equal times the map order decides whom an eviction takes. All runs of the stores take tokens as fresh.
- Hashing, JSON, encryption and PNG re-encoding are functions about which only the stated hypotheses are used; a collision of request fingerprints would count as a match.
- RefreshTokens: issuing the access token, loading the user and the session response are outside the model; an account is active or disabled.
- IconUpload: the single-image PNG and JPEG branches and the file-name checks.
- ICalendar: recurrence rules, the assembly of a feed and invalid UTF-8 input; a line is a sequence of Unicode scalar values.
- ChannelSecrets: the error returns for configurations that do not decrypt or parse.
- DomainLists: IP-prefix lists, and the lookups that use a parsed list; lower-casing is assumed only to leave host-name characters alone.
- RecoveryIndex: the fields of an action other than its key and failure, and the loading of subscriptions, whose active ones are a parameter.
- HTTP handlers, settings storage, backups, imports, exchange rates and the web front end would add only easy members.
