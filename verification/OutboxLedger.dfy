/** What every run of the outbox keeps, under every interleaving and any clock readings. */
module OutboxLedger {
  import opened Basics
  import opened Calendar
  import opened DedupeKeys
  import opened Outbox

  // ---- counting ----

  function LogCount(logs: seq<Log>, id: nat, status: LogStatus): nat {
    if logs == [] then 0
    else
      var l := logs[|logs| - 1];
      LogCount(logs[..|logs| - 1], id, status) + (if l.outboxId == Some(id) && l.status == status then 1 else 0)
  }

  /** The worker may still report a failure of row id with an attempt number below limit. */
  predicate MayRetry(w: Worker, id: nat, limit: nat) {
    match w
    case Claimed(i, _, attempt) => i == id && attempt < limit
    case Holding(job, _) => job.id == id && job.row.attemptCount < limit
    case Done => false
  }

  function RetryCount(workers: seq<Worker>, id: nat, limit: nat): nat {
    if workers == [] then 0
    else RetryCount(workers[..|workers| - 1], id, limit)
         + (if MayRetry(workers[|workers| - 1], id, limit) then 1 else 0)
  }

  lemma LogCountAppend(logs: seq<Log>, l: Log, id: nat, status: LogStatus)
    ensures LogCount(logs + [l], id, status)
            == LogCount(logs, id, status) + (if l.outboxId == Some(id) && l.status == status then 1 else 0)
  {
  }

  lemma RetryCountAppend(workers: seq<Worker>, w: Worker, id: nat, limit: nat)
    ensures RetryCount(workers + [w], id, limit)
            == RetryCount(workers, id, limit) + (if MayRetry(w, id, limit) then 1 else 0)
  {
  }

  lemma {:induction false} RetryCountUpdate(workers: seq<Worker>, k: nat, w: Worker, id: nat, limit: nat)
    requires k < |workers|
    ensures RetryCount(workers[k := w], id, limit) + (if MayRetry(workers[k], id, limit) then 1 else 0)
            == RetryCount(workers, id, limit) + (if MayRetry(w, id, limit) then 1 else 0)
  {
    var n := |workers| - 1;
    if k == n {
      assert workers[k := w][..n] == workers[..n];
    } else {
      assert workers[k := w][..n] == workers[..n][k := w];
      RetryCountUpdate(workers[..n], k, w, id, limit);
    }
  }

  // ---- the invariant ----

  ghost predicate RowKept(s: System, id: nat)
    requires id < |s.db.rows|
  {
    var r := s.db.rows[id];
    var limit := EffectiveMaxAttempts(r);
    var sent, failed := LogCount(s.db.logs, id, LogSent), LogCount(s.db.logs, id, LogFailed);
    && sent == (if r.status == Sent then 1 else 0)
    && sent + failed + (if r.status == Processing then 1 else 0) <= r.attemptCount
    && (r.status == Failed ==> r.attemptCount >= limit && failed <= limit)
    && (r.status != Failed ==>
          failed + RetryCount(s.workers, id, limit) <= if r.attemptCount < limit then r.attemptCount else limit - 1)
  }

  ghost predicate WorkerKept(s: System, w: Worker) {
    match w
    case Claimed(id, _, attempt) => id < |s.db.rows| && attempt <= s.db.rows[id].attemptCount
    case Holding(job, _) =>
      && job.id < |s.db.rows|
      && Fixed(job.row) == Fixed(s.db.rows[job.id])
      && job.row.attemptCount <= s.db.rows[job.id].attemptCount
    case Done => true
  }

  ghost predicate Kept(s: System) {
    && (forall id | 0 <= id < |s.db.rows| :: RowKept(s, id))
    && (forall k | 0 <= k < |s.workers| :: WorkerKept(s, s.workers[k]))
    && (forall k | 0 <= k < |s.db.logs| ::
          s.db.logs[k].outboxId.Some? ==> s.db.logs[k].outboxId.value < |s.db.rows|)
  }

  /** A database nobody has worked on yet: rows of any age and limit, logs of older versions only. */
  ghost predicate Fresh(s: System) {
    && s.workers == []
    && (forall k | 0 <= k < |s.db.rows| :: s.db.rows[k].status == Pending && s.db.rows[k].attemptCount == 0
                                           && s.db.rows[k].lastAttemptAt == None)
    && (forall k | 0 <= k < |s.db.logs| :: s.db.logs[k].outboxId == None)
  }

  lemma {:induction false} NoLogsOfRow(logs: seq<Log>, id: nat, status: LogStatus)
    requires forall k | 0 <= k < |logs| :: logs[k].outboxId != Some(id)
    ensures LogCount(logs, id, status) == 0
  {
    if logs != [] {
      NoLogsOfRow(logs[..|logs| - 1], id, status);
    }
  }

  lemma {:induction false} NoWorkersOfRow(s: System, workers: seq<Worker>, id: nat, limit: nat)
    requires |s.db.rows| <= id
    requires forall k | 0 <= k < |workers| :: WorkerKept(s, workers[k])
    ensures RetryCount(workers, id, limit) == 0
  {
    if workers != [] {
      NoWorkersOfRow(s, workers[..|workers| - 1], id, limit);
    }
  }

  lemma FreshIsKept(s: System)
    requires Fresh(s)
    ensures Kept(s)
  {
    forall id | 0 <= id < |s.db.rows| ensures RowKept(s, id) {
      NoLogsOfRow(s.db.logs, id, LogSent);
      NoLogsOfRow(s.db.logs, id, LogFailed);
    }
  }

  lemma EnqueueShape(db: Db, req: Request, loc: int, now: int)
    ensures var db' := Enqueue(db, req, loc, now);
            db' == db || (db'.logs == db.logs && db'.rows == db.rows + [NewRow(req, now)])
    ensures NewRow(req, now).status == Pending && NewRow(req, now).attemptCount == 0
  {
  }

  lemma EnqueueKeeps(s: System, req: Request, loc: int, now: int)
    requires Kept(s)
    ensures Kept(Next(s, EnqueueStep(req, loc, now)))
  {
    EnqueueShape(s.db, req, loc, now);
    hide Enqueue, NewRow, LogCount, RetryCount, Fixed;
    var s' := Next(s, EnqueueStep(req, loc, now));
    if s' != s {
      var n := |s.db.rows|;
      NoLogsOfRow(s.db.logs, n, LogSent);
      NoLogsOfRow(s.db.logs, n, LogFailed);
      NoWorkersOfRow(s, s.workers, n, EffectiveMaxAttempts(s'.db.rows[n]));
      forall id | 0 <= id < n ensures RowKept(s', id) {
        assert RowKept(s, id);
      }
      forall k | 0 <= k < |s'.workers| ensures WorkerKept(s', s'.workers[k]) {
        assert WorkerKept(s, s.workers[k]);
      }
    }
  }

  lemma ExpireKeeps(s: System, now: int)
    requires Kept(s)
    ensures Kept(Next(s, ExpireStep(now)))
  {
    var s' := Next(s, ExpireStep(now));
    forall id | 0 <= id < |s'.db.rows| ensures RowKept(s', id) {
      assert RowKept(s, id);
    }
    forall k | 0 <= k < |s'.workers| ensures WorkerKept(s', s'.workers[k]) {
      assert WorkerKept(s, s.workers[k]);
    }
  }

  lemma ClaimKeeps(s: System, id: nat, owner: string, now: int)
    requires Kept(s)
    ensures Kept(Next(s, ClaimStep(id, owner, now)))
  {
    var s' := Next(s, ClaimStep(id, owner, now));
    if s' != s {
      var w := Claimed(id, owner, s.db.rows[id].attemptCount + 1);
      forall i | 0 <= i < |s'.db.rows| ensures RowKept(s', i) {
        assert RowKept(s, i);
        RetryCountAppend(s.workers, w, i, EffectiveMaxAttempts(s.db.rows[i]));
      }
      forall k | 0 <= k < |s'.workers| ensures WorkerKept(s', s'.workers[k]) {
        if k < |s.workers| { assert WorkerKept(s, s.workers[k]); }
      }
    }
  }

  lemma RereadKeeps(s: System, w: nat)
    requires Kept(s)
    ensures Kept(Next(s, RereadStep(w)))
  {
    var s' := Next(s, RereadStep(w));
    if s' != s {
      assert WorkerKept(s, s.workers[w]);
      forall i | 0 <= i < |s'.db.rows| ensures RowKept(s', i) {
        assert RowKept(s, i);
        RetryCountUpdate(s.workers, w, s'.workers[w], i, EffectiveMaxAttempts(s.db.rows[i]));
      }
      forall k | 0 <= k < |s'.workers| ensures WorkerKept(s', s'.workers[k]) {
        assert WorkerKept(s, s.workers[k]);
      }
    }
  }

  lemma FinishShape(db: Db, job: Job, owner: string, outcome: Outcome, now: int)
    ensures var db' := Finish(db, job, owner, outcome, now);
            && |db'.rows| == |db.rows|
            && (forall i | 0 <= i < |db.rows| ::
                  Fixed(db'.rows[i]) == Fixed(db.rows[i]) && db'.rows[i].attemptCount == db.rows[i].attemptCount)
            && (db'.logs == db.logs
                || (job.id < |db.rows| && exists l :: db'.logs == db.logs + [l] && l.outboxId == Some(job.id)))
  {
  }

  lemma SameLimit(r: Row, q: Row)
    requires Fixed(r) == Fixed(q)
    ensures EffectiveMaxAttempts(r) == EffectiveMaxAttempts(q)
  {
  }

  lemma FinishKeeps(s: System, w: nat, outcome: Outcome, now: int)
    requires Kept(s)
    ensures Kept(Next(s, FinishStep(w, outcome, now)))
  {
    hide RowKept, Finish, Fixed;
    var s' := Next(s, FinishStep(w, outcome, now));
    if w < |s.workers| {
      assert WorkerKept(s, s.workers[w]);
      if s.workers[w].Holding? { FinishShape(s.db, s.workers[w].job, s.workers[w].owner, outcome, now); }
      forall i | 0 <= i < |s'.db.rows| ensures RowKept(s', i) {
        FinishKeepsRow(s, w, outcome, now, i);
      }
      forall k | 0 <= k < |s'.workers| ensures WorkerKept(s', s'.workers[k]) {
        assert WorkerKept(s, s.workers[k]);
      }
    }
  }

  lemma FinishKeepsRow(s: System, w: nat, outcome: Outcome, now: int, id: nat)
    requires Kept(s) && w < |s.workers| && id < |s.db.rows|
    ensures RowKept(Next(s, FinishStep(w, outcome, now)), id)
  {
    assert RowKept(s, id) && WorkerKept(s, s.workers[w]);
    RetryCountUpdate(s.workers, w, Done, id, EffectiveMaxAttempts(s.db.rows[id]));
    if s.workers[w].Holding? && Applies(s.db, s.workers[w].job, s.workers[w].owner) {
      FinishKeepsTouchedRow(s, w, outcome, now, id);
    }
  }

  lemma FinishKeepsTouchedRow(s: System, w: nat, outcome: Outcome, now: int, id: nat)
    requires w < |s.workers| && s.workers[w].Holding? && WorkerKept(s, s.workers[w])
    requires Applies(s.db, s.workers[w].job, s.workers[w].owner)
    requires id < |s.db.rows| && RowKept(s, id)
    ensures RowKept(Next(s, FinishStep(w, outcome, now)), id)
  {
    hide Fixed, Backoff, LogCount, RetryCount;
    var job, r := s.workers[w].job, s.db.rows[id];
    SameLimit(job.row, s.db.rows[job.id]);
    RetryCountUpdate(s.workers, w, Done, id, EffectiveMaxAttempts(r));
    match outcome
    case Delivered =>
      LogCountAppend(s.db.logs, JobLog(job, LogSent, "", now), id, LogSent);
      LogCountAppend(s.db.logs, JobLog(job, LogSent, "", now), id, LogFailed);
    case DeliveryFailed(e) =>
      LogCountAppend(s.db.logs, JobLog(job, LogFailed, e, now), id, LogSent);
      LogCountAppend(s.db.logs, JobLog(job, LogFailed, e, now), id, LogFailed);
    case Withdrawn(_) =>
    case FoundExpired =>
    case PutBack(_) =>
    case Abandoned =>
  }

  lemma StepKeeps(s: System, step: Step)
    requires Kept(s)
    ensures Kept(Next(s, step))
  {
    match step
    case EnqueueStep(req, loc, now) => EnqueueKeeps(s, req, loc, now);
    case ExpireStep(now) => ExpireKeeps(s, now);
    case ClaimStep(id, owner, now) => ClaimKeeps(s, id, owner, now);
    case RereadStep(w) => RereadKeeps(s, w);
    case FinishStep(w, outcome, now) => FinishKeeps(s, w, outcome, now);
  }

  lemma {:induction false} RunKeeps(s: System, steps: seq<Step>)
    requires Kept(s)
    ensures Kept(Run(s, steps))
    decreases |steps|
  {
    if steps != [] {
      StepKeeps(s, steps[0]);
      RunKeeps(Next(s, steps[0]), steps[1..]);
    }
  }

  /**
   * The delivery ledger of any row after any run: at most one sent log, and one exactly when
   * the row is sent; every log and the attempt in progress are paid for by an attempt; failed
   * logs never exceed the row's limit, and the row only fails for good once the limit is used up.
   */
  lemma Ledger(s: System, steps: seq<Step>, id: nat)
    requires Fresh(s)
    requires id < |Run(s, steps).db.rows|
    ensures var db := Run(s, steps).db;
            var r, sent, failed := db.rows[id], LogCount(db.logs, id, LogSent), LogCount(db.logs, id, LogFailed);
            && sent <= 1
            && (sent == 1 <==> r.status == Sent)
            && sent + failed + (if r.status == Processing then 1 else 0) <= r.attemptCount
            && failed <= EffectiveMaxAttempts(r)
            && (r.status == Failed ==> r.attemptCount >= EffectiveMaxAttempts(r))
  {
    FreshIsKept(s);
    RunKeeps(s, steps);
    assert RowKept(Run(s, steps), id);
  }

  // ---- finished rows stay finished ----

  /** Rows are never removed and never change their identity; a finished row never changes at all. */
  lemma StepGrows(s: System, step: Step, id: nat)
    requires id < |s.db.rows|
    ensures id < |Next(s, step).db.rows|
    ensures Fixed(Next(s, step).db.rows[id]) == Fixed(s.db.rows[id])
    ensures Terminal(s.db.rows[id]) ==> Next(s, step).db.rows[id] == s.db.rows[id]
    ensures Terminal(s.db.rows[id]) ==>
              forall st :: LogCount(Next(s, step).db.logs, id, st) == LogCount(s.db.logs, id, st)
  {
  }

  lemma {:induction false} RunGrows(s: System, steps: seq<Step>, id: nat)
    requires id < |s.db.rows|
    ensures id < |Run(s, steps).db.rows|
    ensures Fixed(Run(s, steps).db.rows[id]) == Fixed(s.db.rows[id])
    decreases |steps|
  {
    if steps != [] {
      StepGrows(s, steps[0], id);
      RunGrows(Next(s, steps[0]), steps[1..], id);
    }
  }

  lemma {:induction false} FinishedForever(s: System, steps: seq<Step>, id: nat)
    requires id < |s.db.rows| && Terminal(s.db.rows[id])
    ensures id < |Run(s, steps).db.rows| && Run(s, steps).db.rows[id] == s.db.rows[id]
    ensures forall st :: LogCount(Run(s, steps).db.logs, id, st) == LogCount(s.db.logs, id, st)
    decreases |steps|
  {
    if steps != [] {
      StepGrows(s, steps[0], id);
      FinishedForever(Next(s, steps[0]), steps[1..], id);
    }
  }

  // ---- one row and one delivery per reminder ----

  ghost predicate Genuine(r: Row) {
    exists d: Time :: r.dedupeKey == DedupeKey(r.userId, r.subscriptionId, r.channelType, r.trigger, r.notifyDate, d)
  }

  /** The unique index on dedupe_key, over rows that enqueue wrote. */
  ghost predicate WellKeyed(rows: seq<Row>) {
    && (forall i | 0 <= i < |rows| :: Genuine(rows[i]))
    && (forall i, j | 0 <= i < j < |rows| :: rows[i].dedupeKey != rows[j].dedupeKey)
  }

  ghost predicate IsRowOf(r: Row, m: Reminder) {
    ParseKey(r.dedupeKey) == Some(m)
  }

  lemma EnqueueKeepsKeys(db: Db, req: Request, loc: int, now: int)
    requires WellKeyed(db.rows)
    ensures WellKeyed(Enqueue(db, req, loc, now).rows)
  {
  }

  lemma FixedRowsKeepKeys(rows: seq<Row>, rows': seq<Row>)
    requires WellKeyed(rows) && |rows'| == |rows|
    requires forall i | 0 <= i < |rows| :: Fixed(rows'[i]) == Fixed(rows[i])
    ensures WellKeyed(rows')
  {
  }

  lemma StepKeepsKeys(s: System, step: Step)
    requires WellKeyed(s.db.rows)
    ensures WellKeyed(Next(s, step).db.rows)
  {
    if step.EnqueueStep? {
      EnqueueKeepsKeys(s.db, step.req, step.loc, step.now);
    } else {
      forall i | 0 <= i < |s.db.rows| ensures Fixed(Next(s, step).db.rows[i]) == Fixed(s.db.rows[i]) {
        StepGrows(s, step, i);
      }
      FixedRowsKeepKeys(s.db.rows, Next(s, step).db.rows);
    }
  }

  lemma {:induction false} RunKeepsKeys(s: System, steps: seq<Step>)
    requires WellKeyed(s.db.rows)
    ensures WellKeyed(Run(s, steps).db.rows)
    decreases |steps|
  {
    if steps != [] {
      StepKeepsKeys(s, steps[0]);
      RunKeepsKeys(Next(s, steps[0]), steps[1..]);
    }
  }

  /** A row stands for exactly one reminder, and that reminder is the one its own columns describe. */
  lemma RowReminder(r: Row) returns (m: Reminder)
    requires Genuine(r)
    ensures IsRowOf(r, m) && m.userId == r.userId && m.subscriptionId == r.subscriptionId
    ensures m.channelType == r.channelType && m.trigger == r.trigger && m.notifyDay == LocalDay(r.notifyDate)
    ensures m.dedupeDay.Some? <==> UsesDedupeDate(m.trigger)
  {
    var d :| r.dedupeKey == DedupeKey(r.userId, r.subscriptionId, r.channelType, r.trigger, r.notifyDate, d);
    KeyRoundTrip(r.userId, r.subscriptionId, r.channelType, r.trigger, r.notifyDate, d);
    m := ReminderOf(r.userId, r.subscriptionId, r.channelType, r.trigger, r.notifyDate, d);
  }

  lemma KeysMatchReminders(r: Row, req: Request)
    requires Genuine(r)
    ensures r.dedupeKey == RequestKey(req) <==> IsRowOf(r, RequestReminder(req))
  {
    var d :| r.dedupeKey == DedupeKey(r.userId, r.subscriptionId, r.channelType, r.trigger, r.notifyDate, d);
    var n := NormalizeDateUTC(req.notifyDate);
    KeyRoundTrip(r.userId, r.subscriptionId, r.channelType, r.trigger, r.notifyDate, d);
    KeyIdentifiesReminder(r.userId, r.subscriptionId, r.channelType, r.trigger, r.notifyDate, d,
                          req.userId, req.subscriptionId, req.channelType, req.trigger, n, RequestDedupeDate(req));
  }

  lemma {:induction false} TwoLogsCountTwice(logs: seq<Log>, i: nat, j: nat, id: nat, status: LogStatus)
    requires i < j < |logs|
    requires logs[i].outboxId == Some(id) && logs[i].status == status
    requires logs[j].outboxId == Some(id) && logs[j].status == status
    ensures LogCount(logs, id, status) >= 2
  {
    var n := |logs| - 1;
    if j < n {
      TwoLogsCountTwice(logs[..n], i, j, id, status);
    } else {
      OneLogCountsOnce(logs[..n], i, id, status);
    }
  }

  lemma {:induction false} OneLogCountsOnce(logs: seq<Log>, i: nat, id: nat, status: LogStatus)
    requires i < |logs| && logs[i].outboxId == Some(id) && logs[i].status == status
    ensures LogCount(logs, id, status) >= 1
  {
    if i < |logs| - 1 {
      OneLogCountsOnce(logs[..|logs| - 1], i, id, status);
    }
  }

  /**
   * However many scans, workers, crashes and restarts there were, two rows are never for the
   * same reminder, and neither are two outbox deliveries.
   */
  lemma OneDeliveryPerReminder(s: System, steps: seq<Step>, m: Reminder)
    requires Fresh(s) && WellKeyed(s.db.rows)
    ensures var db := Run(s, steps).db;
            && (forall i, j | 0 <= i < j < |db.rows| :: !(IsRowOf(db.rows[i], m) && IsRowOf(db.rows[j], m)))
            && (forall i, j | 0 <= i < j < |db.logs| ::
                !(DeliveryOf(db, db.logs[i], m) && DeliveryOf(db, db.logs[j], m)))
  {
    var db := Run(s, steps).db;
    RunKeepsKeys(s, steps);
    FreshIsKept(s);
    RunKeeps(s, steps);
    forall i, j | 0 <= i < j < |db.rows| ensures !(IsRowOf(db.rows[i], m) && IsRowOf(db.rows[j], m)) {
      DistinctReminders(db.rows, i, j, m);
    }
    forall i, j | 0 <= i < j < |db.logs| ensures !(DeliveryOf(db, db.logs[i], m) && DeliveryOf(db, db.logs[j], m)) {
      if DeliveryOf(db, db.logs[i], m) && DeliveryOf(db, db.logs[j], m) {
        var a, b := db.logs[i].outboxId.value, db.logs[j].outboxId.value;
        if a == b {
          assert RowKept(Run(s, steps), a);
          TwoLogsCountTwice(db.logs, i, j, a, LogSent);
        } else if a < b {
          DistinctReminders(db.rows, a, b, m);
        } else {
          DistinctReminders(db.rows, b, a, m);
        }
      }
    }
  }

  lemma DistinctReminders(rows: seq<Row>, i: nat, j: nat, m: Reminder)
    requires WellKeyed(rows) && i < j < |rows|
    ensures !(IsRowOf(rows[i], m) && IsRowOf(rows[j], m))
  {
    var r, q := rows[i], rows[j];
    assert Genuine(r) && Genuine(q);
    var d :| r.dedupeKey == DedupeKey(r.userId, r.subscriptionId, r.channelType, r.trigger, r.notifyDate, d);
    var e :| q.dedupeKey == DedupeKey(q.userId, q.subscriptionId, q.channelType, q.trigger, q.notifyDate, e);
    KeyRoundTrip(r.userId, r.subscriptionId, r.channelType, r.trigger, r.notifyDate, d);
    KeyRoundTrip(q.userId, q.subscriptionId, q.channelType, q.trigger, q.notifyDate, e);
    KeyIdentifiesReminder(r.userId, r.subscriptionId, r.channelType, r.trigger, r.notifyDate, d,
                          q.userId, q.subscriptionId, q.channelType, q.trigger, q.notifyDate, e);
  }

  ghost predicate DeliveryOf(db: Db, l: Log, m: Reminder) {
    l.status == LogSent && l.outboxId.Some? && l.outboxId.value < |db.rows| && IsRowOf(db.rows[l.outboxId.value], m)
  }

  /** A request is refused only for a delivery or a row of its own reminder, never for another one's. */
  lemma EnqueueInsertsExactlyNewReminders(db: Db, req: Request, loc: int, now: int)
    requires WellKeyed(db.rows)
    ensures |Enqueue(db, req, loc, now).rows| == |db.rows| + 1
            <==> !AlreadySent(db.logs, req, loc) && forall r | r in db.rows :: !IsRowOf(r, RequestReminder(req))
    ensures WellKeyed(Enqueue(db, req, loc, now).rows)
    ensures AlreadySent(db.logs, req, loc)
            || exists r :: r in Enqueue(db, req, loc, now).rows && IsRowOf(r, RequestReminder(req))
  {
    EnqueueKeepsKeys(db, req, loc, now);
    var db' := Enqueue(db, req, loc, now);
    forall r | r in db'.rows
      ensures r.dedupeKey == RequestKey(req) <==> IsRowOf(r, RequestReminder(req))
    {
      KeysMatchReminders(r, req);
    }
    forall r | r in db.rows ensures r in db'.rows {}
    if !AlreadySent(db.logs, req, loc) {
      if HasKey(db.rows, RequestKey(req)) {
        var r :| r in db.rows && r.dedupeKey == RequestKey(req);
        assert r in db'.rows && IsRowOf(r, RequestReminder(req));
      } else {
        assert db'.rows[|db.rows|] in db'.rows && db'.rows[|db.rows|].dedupeKey == RequestKey(req);
      }
    }
  }
}
