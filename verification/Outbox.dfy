/**
 * The notification outbox: rows, delivery logs, and what each database statement of the
 * dispatcher does to them. Timestamps are instants in seconds.
 */
module Outbox {
  import opened Basics
  import opened Calendar
  import opened DedupeKeys

  const LEASE_TTL := 5 * MINUTE
  const EXPIRY_WINDOW := 36 * HOUR
  const DEFAULT_MAX_ATTEMPTS := 5

  datatype Status = Pending | Processing | Sent | Failed | Cancelled | Expired

  datatype Row = Row(
    dedupeKey: string,
    userId: nat,
    subscriptionId: nat,
    channelId: Option<nat>,
    channelType: string,
    trigger: Trigger,
    notifyDate: Time,
    scheduledFor: int,
    expiresAt: Option<int>,
    maxAttempts: int,
    status: Status,
    attemptCount: nat,
    nextAttemptAt: int,
    lockedBy: string,
    lockedUntil: Option<int>,
    lastAttemptAt: Option<int>,
    sentAt: Option<int>,
    lastError: string)

  datatype LogStatus = LogSent | LogFailed

  /** A missing outbox id or an empty trigger type marks a log written by an older version. */
  datatype Log = Log(
    outboxId: Option<nat>,
    userId: nat,
    subscriptionId: nat,
    channelType: string,
    trigger: Option<Trigger>,
    notifyDate: Time,
    status: LogStatus,
    error: string,
    sentAt: int)

  /** A row's id is its index. */
  datatype Db = Db(rows: seq<Row>, logs: seq<Log>)

  datatype Request = Request(
    userId: nat,
    subscriptionId: nat,
    channelId: nat,
    channelType: string,
    trigger: Trigger,
    notifyDate: Time,
    dedupeDate: Option<Time>)

  /** A claimed row as the worker read it: it may be out of date by the time it is used. */
  datatype Job = Job(id: nat, row: Row)

  // ---- enqueue ----

  function RequestDedupeDate(req: Request): Time {
    match req.dedupeDate
    case Some(d) => d
    case None => NormalizeDateUTC(req.notifyDate)
  }

  function RequestKey(req: Request): string {
    DedupeKey(req.userId, req.subscriptionId, req.channelType, req.trigger,
              NormalizeDateUTC(req.notifyDate), RequestDedupeDate(req))
  }

  function RequestReminder(req: Request): Reminder {
    ReminderOf(req.userId, req.subscriptionId, req.channelType, req.trigger,
               NormalizeDateUTC(req.notifyDate), RequestDedupeDate(req))
  }

  predicate RequiresExactSentLog(t: Trigger) {
    t == ManualEnded || t == EndingSoon
  }

  predicate SentLogBlocks(l: Log, req: Request, loc: int) {
    && l.status == LogSent
    && l.subscriptionId == req.subscriptionId
    && l.channelType == req.channelType
    && (|| l.notifyDate.instant == NormalizeDateUTC(req.notifyDate).instant
        || l.notifyDate.instant == NormalizeDateInTimezone(req.notifyDate, req.notifyDate.offset).instant)
    && (l.trigger == Some(req.trigger) || (l.trigger == None && !RequiresExactSentLog(req.trigger)))
    && (UsesDedupeDate(req.trigger) ==>
          var start := NormalizeDateInTimezone(RequestDedupeDate(req), loc).instant;
          start <= l.sentAt < start + DAY)
  }

  predicate AlreadySent(logs: seq<Log>, req: Request, loc: int) {
    exists l | l in logs :: SentLogBlocks(l, req, loc)
  }

  predicate HasKey(rows: seq<Row>, key: string) {
    exists r | r in rows :: r.dedupeKey == key
  }

  function NewRow(req: Request, now: int): Row {
    var notifyDate := NormalizeDateUTC(req.notifyDate);
    var expires := (if req.trigger == ManualEnded then now else notifyDate.instant) + EXPIRY_WINDOW;
    Row(RequestKey(req), req.userId, req.subscriptionId, Some(req.channelId), req.channelType, req.trigger,
        notifyDate, now, Some(expires), DEFAULT_MAX_ATTEMPTS, Pending, 0, now, "", None, None, None, "")
  }

  function Enqueue(db: Db, req: Request, loc: int, now: int): Db {
    if AlreadySent(db.logs, req, loc) || HasKey(db.rows, RequestKey(req)) then db
    else db.(rows := db.rows + [NewRow(req, now)])
  }

  // ---- claim and expire ----

  predicate Open(r: Row) {
    r.status == Pending || r.status == Processing
  }

  predicate Terminal(r: Row) {
    !Open(r)
  }

  predicate Claimable(r: Row, now: int) {
    && Open(r)
    && r.nextAttemptAt <= now
    && (r.expiresAt.Some? ==> r.expiresAt.value > now)
    && (r.lockedUntil.Some? ==> r.lockedUntil.value <= now)
  }

  function ClaimRow(r: Row, owner: string, now: int): Row {
    r.(status := Processing, lockedBy := owner, lockedUntil := Some(now + LEASE_TTL),
       lastAttemptAt := Some(now), attemptCount := r.attemptCount + 1)
  }

  predicate DueToExpire(r: Row, now: int) {
    Open(r) && r.expiresAt.Some? && r.expiresAt.value <= now
  }

  function ExpireRow(r: Row, now: int): Row {
    if DueToExpire(r, now) then r.(status := Expired, lockedBy := "", lockedUntil := None) else r
  }

  function ExpireRows(rows: seq<Row>, now: int): seq<Row> {
    seq(|rows|, i requires 0 <= i < |rows| => ExpireRow(rows[i], now))
  }

  // ---- completing a job ----

  /** The guard of every completing update: the caller's process holds the row. */
  predicate HeldBy(r: Row, owner: string) {
    r.lockedBy == owner && r.status == Processing
  }

  predicate Applies(db: Db, job: Job, owner: string) {
    job.id < |db.rows| && HeldBy(db.rows[job.id], owner)
  }

  function EffectiveMaxAttempts(r: Row): nat {
    if r.maxAttempts <= 0 then DEFAULT_MAX_ATTEMPTS else r.maxAttempts
  }

  function Backoff(attemptCount: nat): int {
    if attemptCount <= 1 then 15 * MINUTE
    else if attemptCount == 2 then 30 * MINUTE
    else if attemptCount == 3 then HOUR
    else 3 * HOUR
  }

  function Unlock(r: Row, status: Status, error: string): Row {
    r.(status := status, lastError := error, lockedBy := "", lockedUntil := None)
  }

  function JobLog(job: Job, status: LogStatus, error: string, now: int): Log {
    Log(Some(job.id), job.row.userId, job.row.subscriptionId, job.row.channelType, Some(job.row.trigger),
        job.row.notifyDate, status, error, now)
  }

  function MarkSent(db: Db, job: Job, owner: string, now: int): Db {
    if !Applies(db, job, owner) then db
    else Db(db.rows[job.id := Unlock(db.rows[job.id], Sent, "").(sentAt := Some(now))],
            db.logs + [JobLog(job, LogSent, "", now)])
  }

  predicate AttemptsUsedUp(job: Job) {
    job.row.attemptCount >= EffectiveMaxAttempts(job.row)
  }

  function FailRow(r: Row, job: Job, error: string, now: int): Row {
    if AttemptsUsedUp(job) then Unlock(r, Failed, error)
    else Unlock(r, Pending, error).(nextAttemptAt := now + Backoff(job.row.attemptCount))
  }

  function MarkFailed(db: Db, job: Job, owner: string, error: string, now: int): Db {
    if !Applies(db, job, owner) then db
    else Db(db.rows[job.id := FailRow(db.rows[job.id], job, error, now)],
            db.logs + [JobLog(job, LogFailed, error, now)])
  }

  function Close(db: Db, job: Job, owner: string, status: Status, reason: string): Db {
    if !Applies(db, job, owner) then db
    else db.(rows := db.rows[job.id := Unlock(db.rows[job.id], status, reason)])
  }

  function Release(db: Db, job: Job, owner: string, error: string, now: int): Db {
    if !Applies(db, job, owner) then db
    else
      var r := Unlock(db.rows[job.id], Pending, error).(nextAttemptAt := now + Backoff(job.row.attemptCount));
      db.(rows := db.rows[job.id := r])
  }

  /** The part of a row that no statement after its insertion changes. */
  function Fixed(r: Row): Row {
    r.(status := Pending, attemptCount := 0, nextAttemptAt := 0, lockedBy := "", lockedUntil := None,
       lastAttemptAt := None, sentAt := None, lastError := "")
  }

  // ---- all processes together ----

  /**
   * A worker between its claim statement and its last statement. Claiming and reading the
   * claimed rows back are two statements, so anything may happen between them.
   */
  datatype Worker =
    | Claimed(id: nat, owner: string, attempt: nat)
    | Holding(job: Job, owner: string)
    | Done

  datatype System = System(db: Db, workers: seq<Worker>)

  datatype Outcome =
    | Delivered
    | DeliveryFailed(error: string)
    | Withdrawn(reason: string)
    | FoundExpired
    | PutBack(error: string)
    | Abandoned   // the process died, was cancelled, or its last statement failed

  /** Every step carries the clock reading of the code that takes it. */
  datatype Step =
    | EnqueueStep(req: Request, loc: int, now: int)
    | ExpireStep(now: int)
    | ClaimStep(id: nat, owner: string, now: int)
    | RereadStep(worker: nat)
    | FinishStep(worker: nat, outcome: Outcome, now: int)

  function Finish(db: Db, job: Job, owner: string, outcome: Outcome, now: int): Db {
    match outcome
    case Delivered => MarkSent(db, job, owner, now)
    case DeliveryFailed(e) => MarkFailed(db, job, owner, e, now)
    case Withdrawn(reason) => Close(db, job, owner, Cancelled, reason)
    case FoundExpired => Close(db, job, owner, Expired, "")
    case PutBack(e) => Release(db, job, owner, e, now)
    case Abandoned => db
  }

  predicate ClaimSucceeds(db: Db, id: nat, now: int) {
    id < |db.rows| && Claimable(db.rows[id], now)
  }

  function Next(s: System, step: Step): System {
    match step
    case EnqueueStep(req, loc, now) => s.(db := Enqueue(s.db, req, loc, now))
    case ExpireStep(now) => s.(db := s.db.(rows := ExpireRows(s.db.rows, now)))
    case ClaimStep(id, owner, now) =>
      if !ClaimSucceeds(s.db, id, now) then s
      else
        var r := ClaimRow(s.db.rows[id], owner, now);
        System(s.db.(rows := s.db.rows[id := r]), s.workers + [Claimed(id, owner, r.attemptCount)])
    case RereadStep(w) =>
      if w < |s.workers| && s.workers[w].Claimed? then
        var Claimed(id, owner, _) := s.workers[w];
        var seen := id < |s.db.rows| && HeldBy(s.db.rows[id], owner);
        s.(workers := s.workers[w := if seen then Holding(Job(id, s.db.rows[id]), owner) else Done])
      else s
    case FinishStep(w, outcome, now) =>
      if w < |s.workers| && s.workers[w].Holding? then
        var Holding(job, owner) := s.workers[w];
        System(Finish(s.db, job, owner, outcome, now), s.workers[w := Done])
      else if w < |s.workers| then s.(workers := s.workers[w := Done])
      else s
  }

  function Run(s: System, steps: seq<Step>): System
    decreases |steps|
  {
    if steps == [] then s else Run(Next(s, steps[0]), steps[1..])
  }

  lemma {:induction false} RunAppend(s: System, a: seq<Step>, b: seq<Step>)
    ensures Run(s, a + b) == Run(Run(s, a), b)
    decreases |a|
  {
    if a == [] {
      assert a + b == b;
    } else {
      assert (a + b)[1..] == a[1..] + b;
      RunAppend(Next(s, a[0]), a[1..], b);
    }
  }
}
