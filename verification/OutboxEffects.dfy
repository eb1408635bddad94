/** What each statement of the outbox does, column by column. */
module OutboxEffects {
  import opened Basics
  import opened Calendar
  import opened DedupeKeys
  import opened Outbox

  // ---- the sweep ----

  /** Not finished, and its expiry is at or before now. */
  ghost predicate Overdue(r: Row, now: int) {
    r.status in {Pending, Processing} && exists t :: r.expiresAt == Some(t) && t <= now
  }

  /** Not finished, not overdue, its next attempt is due, and nobody's lock on it is still running. */
  ghost predicate Ready(r: Row, now: int) {
    && r.status in {Pending, Processing} && !Overdue(r, now)
    && r.nextAttemptAt <= now && !(exists t :: r.lockedUntil == Some(t) && t > now)
  }

  /**
   * The sweep changes exactly the overdue rows, to expired and unlocked; nothing that could be
   * claimed now is touched, and no open row is overdue afterwards.
   */
  lemma SweepExactly(rows: seq<Row>, now: int)
    ensures var swept := ExpireRows(rows, now);
            && |swept| == |rows|
            && forall i | 0 <= i < |rows| ::
                 && (swept[i] != rows[i] <==> Overdue(rows[i], now))
                 && (Overdue(rows[i], now) ==>
                       swept[i] == rows[i].(status := Expired, lockedBy := "", lockedUntil := None))
                 && !Overdue(swept[i], now)
                 && (Ready(rows[i], now) ==> Ready(swept[i], now))
  {
    forall i | 0 <= i < |rows|
      ensures DueToExpire(rows[i], now) <==> Overdue(rows[i], now)
      ensures DueToExpire(rows[i], now) ==> rows[i].status != Expired
    {
      DueExactly(rows[i], now);
    }
  }

  lemma DueExactly(r: Row, now: int)
    ensures DueToExpire(r, now) <==> Overdue(r, now)
    ensures Claimable(r, now) <==> Ready(r, now)
  {
    if r.expiresAt.Some? { assert r.expiresAt == Some(r.expiresAt.value); }
    if r.lockedUntil.Some? { assert r.lockedUntil == Some(r.lockedUntil.value); }
  }

  /** A row is open in exactly one of four ways: overdue, waiting, locked, or ready to be claimed. */
  lemma OpenRowsAreOfFourKinds(r: Row, now: int)
    requires r.status in {Pending, Processing} && !Overdue(r, now)
    ensures Claimable(r, now)
            <==> !(r.nextAttemptAt > now) && !(exists t :: r.lockedUntil == Some(t) && t > now)
    ensures !DueToExpire(r, now)
  {
    DueExactly(r, now);
  }

  // ---- claims ----

  /** What a claim leaves: five columns change, the others do not. */
  lemma ClaimExactly(r: Row, owner: string, now: int)
    ensures var c := ClaimRow(r, owner, now);
            && c.status == Processing && c.lockedBy == owner && c.lockedUntil == Some(now + 300)
            && c.lastAttemptAt == Some(now) && c.attemptCount == r.attemptCount + 1
            && c == r.(status := Processing, lockedBy := owner, lockedUntil := c.lockedUntil,
                       lastAttemptAt := c.lastAttemptAt, attemptCount := c.attemptCount)
    ensures forall t | Claimable(ClaimRow(r, owner, now), t) :: t >= now + 300
  {
  }

  // ---- new rows ----

  /**
   * A new row is pending, due at once, unlocked and unattempted, and lives for 36 hours from its
   * day (or its end) on.
   */
  lemma NewRowExactly(req: Request, now: int)
    ensures var r := NewRow(req, now);
            && r.userId == req.userId && r.subscriptionId == req.subscriptionId && r.channelId == Some(req.channelId)
            && r.channelType == req.channelType && r.trigger == req.trigger
            && r.notifyDate == Time(LocalDay(req.notifyDate) * 86400, 0)
            && r.scheduledFor == now && r.nextAttemptAt == now
            && r.expiresAt
               == Some((if req.trigger == ManualEnded then now else LocalDay(req.notifyDate) * 86400) + 129600)
            && r.status == Pending && r.attemptCount == 0 && r.maxAttempts == 5
            && r.lockedBy == "" && r.lockedUntil == None && r.lastAttemptAt == None && r.sentAt == None
            && r.lastError == ""
  {
  }

  /** It can be claimed at once, unless its day was too long ago. */
  lemma NewRowIsReady(req: Request, now: int)
    ensures Ready(NewRow(req, now), now)
            <==> req.trigger == ManualEnded || now < LocalDay(req.notifyDate) * 86400 + 129600
  {
    NewRowExactly(req, now);
    hide NewRow;
    var r := NewRow(req, now);
    assert r.expiresAt == Some(r.expiresAt.value);
  }

  // ---- sent logs ----

  /**
   * In days, for a request dated by days in the server's zone and a log dated by a day there or in
   * UTC: a sent log of the subscription and channel type covers it exactly when the days agree, the
   * trigger is the same or the log is too old to have one (ends need the trigger), and, where the
   * date is in the key, it was sent on that local day.
   */
  lemma CoverExactly(l: Log, req: Request, day: int, dedupeDay: int, logDay: int, logOffset: int, loc: int)
    requires -86400 < loc < 86400
    requires req.notifyDate == StartOfDay(day, loc) && req.dedupeDate == Some(StartOfDay(dedupeDay, loc))
    requires l.notifyDate == StartOfDay(logDay, logOffset) && logOffset in {0, loc}
    ensures AlreadySent([l], req, loc)
            <==> l.status == LogSent && l.subscriptionId == req.subscriptionId && l.channelType == req.channelType
                 && logDay == day
                 && (l.trigger == Some(req.trigger)
                     || (l.trigger == None && req.trigger in {DaysBefore, DueDay, ManualDaily}))
                 && (req.trigger in {ManualDaily, EndingSoon} ==> LocalDay(Time(l.sentAt, loc)) == dedupeDay)
  {
    assert NormalizeDateUTC(req.notifyDate).instant == day * DAY;
    assert NormalizeDateInTimezone(req.notifyDate, req.notifyDate.offset).instant == day * DAY - loc;
    assert NormalizeDateInTimezone(RequestDedupeDate(req), loc).instant == dedupeDay * DAY - loc;
    assert l in [l];
    assert forall x | x in [l] :: x == l;
  }

  /** A request without a date for its key is dated by its UTC day. */
  lemma UndatedRequest(req: Request, loc: int)
    requires req.dedupeDate == None
    ensures var dated := req.(dedupeDate := Some(StartOfDay(LocalDay(req.notifyDate), 0)));
            && RequestKey(req) == RequestKey(dated)
            && forall logs :: AlreadySent(logs, req, loc) <==> AlreadySent(logs, dated, loc)
  {
    var dated := req.(dedupeDate := Some(StartOfDay(LocalDay(req.notifyDate), 0)));
    assert RequestDedupeDate(req) == RequestDedupeDate(dated);
    forall l ensures SentLogBlocks(l, req, loc) <==> SentLogBlocks(l, dated, loc) {}
  }

  /** One covering log is enough, and nothing else counts. */
  lemma CoverByOneLog(logs: seq<Log>, req: Request, loc: int)
    ensures AlreadySent(logs, req, loc) <==> exists l | l in logs :: AlreadySent([l], req, loc)
  {
    hide SentLogBlocks;
    forall l ensures AlreadySent([l], req, loc) <==> SentLogBlocks(l, req, loc) {
      assert l in [l] && forall x | x in [l] :: x == l;
    }
  }

  // ---- completing ----

  /** The waits between attempts, in minutes. */
  function RetryWait(attempt: nat): int {
    60 * (if attempt <= 1 then 15 else if attempt == 2 then 30 else if attempt == 3 then 60 else 180)
  }

  /** After its fifth attempt, or the number its row allows, a job is not tried again. */
  predicate LastAttempt(job: Job) {
    job.row.attemptCount >= if job.row.maxAttempts <= 0 then 5 else job.row.maxAttempts
  }

  predicate Held(db: Db, job: Job, owner: string) {
    job.id < |db.rows| && db.rows[job.id].lockedBy == owner && db.rows[job.id].status == Processing
  }

  /** Only the job's row differs, and it is unlocked. */
  ghost predicate OnlyRowOf(db: Db, db': Db, job: Job)
    requires job.id < |db.rows|
  {
    && |db'.rows| == |db.rows| && (forall i | 0 <= i < |db.rows| && i != job.id :: db'.rows[i] == db.rows[i])
    && db'.rows[job.id].lockedBy == "" && db'.rows[job.id].lockedUntil == None
    && db'.rows[job.id].attemptCount == db.rows[job.id].attemptCount
  }

  function LogOf(job: Job, status: LogStatus, error: string, at: int): Log {
    Log(Some(job.id), job.row.userId, job.row.subscriptionId, job.row.channelType, Some(job.row.trigger),
        job.row.notifyDate, status, error, at)
  }

  /** What each ending leaves of a held row, and which log it writes; a row no longer held is left alone. */
  lemma FinishExactly(db: Db, job: Job, owner: string, outcome: Outcome, now: int)
    ensures var db' := Finish(db, job, owner, outcome, now);
            && (!Held(db, job, owner) || outcome == Abandoned ==> db' == db)
            && (Held(db, job, owner) && outcome != Abandoned ==>
                  OnlyRowOf(db, db', job)
                  && var r := db'.rows[job.id];
                     match outcome
                     case Delivered =>
                       && r.status == Sent && r.sentAt == Some(now) && r.lastError == ""
                       && db'.logs == db.logs + [LogOf(job, LogSent, "", now)]
                     case DeliveryFailed(e) =>
                       && r.status == (if LastAttempt(job) then Failed else Pending) && r.lastError == e
                       && (r.status == Pending ==> r.nextAttemptAt == now + RetryWait(job.row.attemptCount))
                       && db'.logs == db.logs + [LogOf(job, LogFailed, e, now)]
                     case Withdrawn(reason) => r.status == Cancelled && r.lastError == reason && db'.logs == db.logs
                     case FoundExpired => r.status == Expired && db'.logs == db.logs
                     case PutBack(e) =>
                       && r.status == Pending && r.lastError == e && db'.logs == db.logs
                       && r.nextAttemptAt == now + RetryWait(job.row.attemptCount)
                     case Abandoned => true)
  {
  }
}
