/** What deliveries do to a countdown: which of them hold back a later day, and that timely ones never do. */
module CountdownDelivery {
  import opened Basics
  import opened Calendar
  import opened DedupeKeys
  import opened Outbox
  import opened Reminders
  import opened Countdown
  import L = OutboxLedger

  function DayRequest(p: Plan, channelId: nat, day: int): Request
    requires p.sub.nextBillingDate.Some?
  {
    RequestOf(p, channelId, ReminderOn(p, day))
  }

  ghost predicate DayCovered(p: Plan, logs: seq<Log>, day: int)
    requires p.sub.nextBillingDate.Some?
  {
    CoveredByLog(p, logs, ReminderOn(p, day))
  }

  /** Every day of the countdown that a sent log covers has its row: no enqueue for it can be held back. */
  ghost predicate Covered(p: Plan, db: Db)
    requires p.sub.nextBillingDate.Some?
  {
    forall day | InCountdown(p, day) :: DayCovered(p, db.logs, day) ==> HasRow(db, ReminderOn(p, day))
  }

  /** Rows carry normalised dates, and the plan's subscription belongs to one user. */
  predicate ProperRow(p: Plan, r: Row) {
    r.notifyDate == NormalizeDateUTC(r.notifyDate) && (r.subscriptionId == p.sub.id ==> r.userId == p.sub.userId)
  }

  ghost predicate ProperRows(p: Plan, db: Db) {
    forall i | 0 <= i < |db.rows| :: ProperRow(p, db.rows[i])
  }

  predicate ProperStep(p: Plan, step: Step) {
    step.EnqueueStep? && step.req.subscriptionId == p.sub.id ==> step.req.userId == p.sub.userId
  }

  function DaysLeft(p: Plan, now: int): int
    requires p.sub.nextBillingDate.Some?
  {
    DaysUntilFrom(Time(now, p.loc), p.sub.nextBillingDate.value, p.loc)
  }

  lemma DaysLeftByDay(p: Plan, now: int)
    requires p.sub.nextBillingDate.Some?
    ensures DaysLeft(p, now) == BillingDay(p) - LocalDay(Time(now, p.loc))
  {
    DaysUntilIsDayDifference(Time(now, p.loc), p.sub.nextBillingDate.value, p.loc);
  }

  // ---- one delivery ----

  /** The log of a delivery covers exactly the days with the row's trigger and, for a daily one, the day of sending. */
  lemma WhatADeliveryCovers(p: Plan, job: Job, now: int, day: int)
    requires CountsDown(p) && -DAY < p.loc < DAY && ProperRow(p, job.row)
    ensures SentLogBlocks(JobLog(job, LogSent, "", now), DayRequest(p, 0, day), p.loc)
            <==> Own(p, job.row) && job.row.trigger == TriggerOn(p, day)
                 && (job.row.trigger == ManualDaily ==> DaysLeft(p, now) == day)
  {
    DaysLeftByDay(p, now);
    hide DaysLeft;
    var r, req := job.row, DayRequest(p, 0, day);
    assert r.notifyDate.instant == LocalDay(r.notifyDate) * DAY;
    assert NormalizeDateUTC(req.notifyDate).instant == BillingDay(p) * DAY;
    assert NormalizeDateInTimezone(req.notifyDate, req.notifyDate.offset).instant == BillingDay(p) * DAY - p.loc;
    if TriggerOn(p, day) == ManualDaily {
      DayOfInstant(now, p.loc, BillingDay(p) - day);
      assert RequestDedupeDate(req) == StartOfDay(BillingDay(p) - day, p.loc);
    }
  }

  lemma DayOfInstant(now: int, loc: int, day: int)
    ensures var start := NormalizeDateInTimezone(StartOfDay(day, loc), loc).instant;
            start == day * DAY - loc && (start <= now < start + DAY <==> LocalDay(Time(now, loc)) == day)
  {
  }

  /** The delivery of this row at now holds back no day that has no row. */
  ghost predicate HoldsNothingBack(p: Plan, db: Db, r: Row, now: int)
    requires p.sub.nextBillingDate.Some?
  {
    var today := DaysLeft(p, now);
    Own(p, r) && r.trigger == ManualDaily && InCountdown(p, today) && TriggerOn(p, today) == ManualDaily
    ==> HasRow(db, ReminderOn(p, today))
  }

  lemma SameRow(r: Row, q: Row)
    requires Fixed(r) == Fixed(q)
    ensures r.trigger == q.trigger && r.notifyDate == q.notifyDate && r.userId == q.userId
    ensures r.subscriptionId == q.subscriptionId && r.channelType == q.channelType
  {
    assert Fixed(r).trigger == Fixed(q).trigger && Fixed(r).notifyDate == Fixed(q).notifyDate
        && Fixed(r).userId == Fixed(q).userId && Fixed(r).subscriptionId == Fixed(q).subscriptionId
        && Fixed(r).channelType == Fixed(q).channelType;
  }

  lemma CoverAfterOneMoreLog(p: Plan, logs: seq<Log>, l: Log, day: int)
    requires p.sub.nextBillingDate.Some?
    ensures DayCovered(p, logs + [l], day)
            <==> DayCovered(p, logs, day) || SentLogBlocks(l, DayRequest(p, 0, day), p.loc)
  {
    hide SentLogBlocks;
    var logs' := logs + [l];
    assert logs'[|logs|] == l && forall x | x in logs :: x in logs';
  }

  /** The row's reminder carries this dedupe day. */
  ghost predicate DatedFor(r: Row, day: int) {
    exists m :: L.IsRowOf(r, m) && m.dedupeDay == Some(day)
  }

  /** An own row that is not a daily one, or a daily one of that day, is the row of each day with its trigger. */
  lemma OwnRowOfTheDay(p: Plan, db: Db, r: Row, day: int)
    requires CountsDown(p) && InCountdown(p, day) && r in db.rows && L.Genuine(r)
    requires Own(p, r) && r.trigger == TriggerOn(p, day)
    requires r.trigger == ManualDaily ==> DatedFor(r, BillingDay(p) - day)
    ensures HasRow(db, ReminderOn(p, day))
  {
    hide L.Genuine, ParseKey;
    var m := L.RowReminder(r);
    assert m == ReminderOn(p, day);
  }

  /**
   * A delivery keeps every covered day with a row exactly when it is not a daily reminder of the
   * countdown sent on another daily day of it that has no row yet.
   */
  lemma DeliveryKeepsCoverExactly(p: Plan, db: Db, job: Job, owner: string, now: int)
    requires CountsDown(p) && -DAY < p.loc < DAY && Covered(p, db) && L.WellKeyed(db.rows) && ProperRows(p, db)
    requires Applies(db, job, owner) && Fixed(job.row) == Fixed(db.rows[job.id])
    ensures Covered(p, MarkSent(db, job, owner, now)) <==> HoldsNothingBack(p, db, db.rows[job.id], now)
  {
    hide HasRow, ReminderOn, DayCovered, SentLogBlocks, Fixed, DaysLeft, L.Genuine, L.IsRowOf, TriggerOn;
    var r, db', l := db.rows[job.id], MarkSent(db, job, owner, now), JobLog(job, LogSent, "", now);
    SameRow(job.row, r);
    assert db'.logs == db.logs + [l];
    forall m ensures HasRow(db', m) <==> HasRow(db, m) { SentKeepsRows(db, job, owner, now, m); }
    forall day | InCountdown(p, day)
      ensures DayCovered(p, db'.logs, day)
              <==> DayCovered(p, db.logs, day)
                   || (Own(p, r) && r.trigger == TriggerOn(p, day)
                       && (r.trigger == ManualDaily ==> DaysLeft(p, now) == day))
      ensures Own(p, r) && r.trigger == TriggerOn(p, day) && r.trigger != ManualDaily ==> HasRow(db, ReminderOn(p, day))
    {
      CoverAfterOneMoreLog(p, db.logs, l, day);
      WhatADeliveryCovers(p, job, now, day);
      if Own(p, r) && r.trigger == TriggerOn(p, day) && r.trigger != ManualDaily {
        OwnRowOfTheDay(p, db, r, day);
      }
    }
  }

  lemma SentKeepsRows(db: Db, job: Job, owner: string, now: int, m: Reminder)
    ensures HasRow(MarkSent(db, job, owner, now), m) <==> HasRow(db, m)
  {
    var db' := MarkSent(db, job, owner, now);
    assert forall i | 0 <= i < |db.rows| :: Fixed(db'.rows[i]) == Fixed(db.rows[i]);
    SameKeysSameReminders(db, db', m);
    SameKeysSameReminders(db', db, m);
  }

  // ---- runs ----

  /** The step delivers row r. */
  predicate Delivers(s: System, step: Step) {
    && step.FinishStep? && step.outcome.Delivered?
    && step.worker < |s.workers| && s.workers[step.worker].Holding?
    && Applies(s.db, s.workers[step.worker].job, s.workers[step.worker].owner)
  }

  function DeliveredRow(s: System, step: Step): Row
    requires Delivers(s, step)
  {
    s.db.rows[s.workers[step.worker].job.id]
  }

  /** A daily reminder of the countdown is sent on its own local day. */
  ghost predicate SentOnItsDay(p: Plan, s: System, step: Step)
    requires p.sub.nextBillingDate.Some?
  {
    Delivers(s, step) && Own(p, DeliveredRow(s, step)) && DeliveredRow(s, step).trigger == ManualDaily ==>
      DatedFor(DeliveredRow(s, step), LocalDay(Time(step.now, p.loc)))
  }

  lemma OwnDayHoldsNothingBack(p: Plan, db: Db, r: Row, now: int)
    requires CountsDown(p) && r in db.rows && L.Genuine(r)
    requires Own(p, r) && r.trigger == ManualDaily ==> DatedFor(r, LocalDay(Time(now, p.loc)))
    ensures HoldsNothingBack(p, db, r, now)
  {
    DaysLeftByDay(p, now);
    hide DaysLeft, HasRow, ReminderOn, L.Genuine, DatedFor, Own, TriggerOn, LocalDay, BillingDay, CountsDown,
      DaysBeforeFor;
    var today := DaysLeft(p, now);
    assert BillingDay(p) - today == LocalDay(Time(now, p.loc));
    if Own(p, r) && r.trigger == ManualDaily && InCountdown(p, today) && TriggerOn(p, today) == ManualDaily {
      OwnRowOfTheDay(p, db, r, today);
    }
  }

  lemma StepKeepsProperRows(p: Plan, s: System, step: Step)
    requires ProperRows(p, s.db) && ProperStep(p, step)
    ensures ProperRows(p, Next(s, step).db)
  {
    hide Fixed;
    var db' := Next(s, step).db;
    OnlyEnqueueAppends(s, step);
    forall i | 0 <= i < |db'.rows| ensures ProperRow(p, db'.rows[i]) {
      if i < |s.db.rows| {
        SameRow(db'.rows[i], s.db.rows[i]);
        assert ProperRow(p, s.db.rows[i]);
      } else {
        AppendedRowIsProper(p, s, step, i);
      }
    }
  }

  lemma AppendedRowIsProper(p: Plan, s: System, step: Step, i: nat)
    requires step.EnqueueStep? && ProperStep(p, step) && |s.db.rows| <= i < |Next(s, step).db.rows|
    ensures ProperRow(p, Next(s, step).db.rows[i])
  {
    NormalizingKeepsTheDay(step.req.notifyDate, 0);
  }

  /** Every step keeps covered days with their rows, if a daily reminder is only sent on its own day. */
  lemma StepKeepsCover(p: Plan, s: System, step: Step)
    requires CountsDown(p) && -DAY < p.loc < DAY && L.Kept(s) && L.WellKeyed(s.db.rows)
    requires ProperRows(p, s.db) && Covered(p, s.db) && SentOnItsDay(p, s, step)
    ensures Covered(p, Next(s, step).db)
  {
    hide HasRow, ReminderOn, DayCovered, Fixed, L.RowKept, L.Genuine, DatedFor, MarkSent;
    if Delivers(s, step) {
      var job, owner := s.workers[step.worker].job, s.workers[step.worker].owner;
      assert L.WorkerKept(s, s.workers[step.worker]);
      OwnDayHoldsNothingBack(p, s.db, s.db.rows[job.id], step.now);
      DeliveryKeepsCoverExactly(p, s.db, job, owner, step.now);
      assert Next(s, step).db == MarkSent(s.db, job, owner, step.now);
    } else {
      OnlyEnqueueAppends(s, step);
      forall day | InCountdown(p, day) && DayCovered(p, Next(s, step).db.logs, day)
        ensures HasRow(Next(s, step).db, ReminderOn(p, day))
      {
        NoNewCover(p, s, step, day);
        SameKeysSameReminders(s.db, Next(s, step).db, ReminderOn(p, day));
      }
    }
  }

  lemma NoNewCover(p: Plan, s: System, step: Step, day: int)
    requires p.sub.nextBillingDate.Some? && !Delivers(s, step) && DayCovered(p, Next(s, step).db.logs, day)
    ensures DayCovered(p, s.db.logs, day)
  {
    hide RequestOf, ReminderOn, Backoff, NewRow;
    var logs, logs' := s.db.logs, Next(s, step).db.logs;
    var l :| l in logs' && SentLogBlocks(l, RequestOf(p, 0, ReminderOn(p, day)), p.loc);
    assert l.status == LogSent;
    assert l in logs;
  }

  /** All daily reminders of the countdown that the run delivers are sent on their own local day. */
  ghost predicate AllSentOnTheirDay(p: Plan, s: System, steps: seq<Step>)
    requires p.sub.nextBillingDate.Some?
  {
    forall k | 0 <= k < |steps| :: SentOnItsDay(p, Run(s, steps[..k]), steps[k])
  }

  lemma {:induction false} RunKeepsCover(p: Plan, s: System, steps: seq<Step>, k: nat)
    requires CountsDown(p) && -DAY < p.loc < DAY && L.Kept(s) && L.WellKeyed(s.db.rows)
    requires ProperRows(p, s.db) && Covered(p, s.db) && AllSentOnTheirDay(p, s, steps) && k <= |steps|
    requires forall i | 0 <= i < |steps| :: ProperStep(p, steps[i])
    ensures var s' := Run(s, steps[..k]);
            L.Kept(s') && L.WellKeyed(s'.db.rows) && ProperRows(p, s'.db) && Covered(p, s'.db)
  {
    hide L.Kept, L.WellKeyed, ProperRows, Covered, SentOnItsDay;
    if k > 0 {
      RunKeepsCover(p, s, steps, k - 1);
      assert steps[..k][..k - 1] == steps[..k - 1];
      LastStep(s, steps[..k]);
      var before, step := Run(s, steps[..k - 1]), steps[k - 1];
      assert SentOnItsDay(p, before, step);
      L.StepKeeps(before, step);
      L.StepKeepsKeys(before, step);
      StepKeepsProperRows(p, before, step);
      StepKeepsCover(p, before, step);
    }
  }

  /**
   * Composed with every other step of the outbox, under every interleaving: a countdown in which
   * each day is asked for and each daily reminder is sent on its own local day leaves a row for
   * each of its days, and no other if nothing stray is asked for.
   */
  lemma TimelyCountdownIsFull(p: Plan, s: System, steps: seq<Step>)
    requires CountsDown(p) && -DAY < p.loc < DAY && CountdownSteps(p, steps) && EachDayIsAsked(p, steps)
    requires L.Kept(s) && L.WellKeyed(s.db.rows) && ProperRows(p, s.db) && OwnCount(p, s.db.rows) == 0
    requires Covered(p, s.db) && AllSentOnTheirDay(p, s, steps)
    requires forall i | 0 <= i < |steps| :: ProperStep(p, steps[i])
    ensures EachDayHasARow(p, Run(s, steps).db)
    ensures (forall k | 0 <= k < |steps| :: !Stray(p, s, steps, k))
            <==> OwnCount(p, Run(s, steps).db.rows) == DaysBeforeFor(p.sub, p.policy) + 1
  {
    hide Blocked, Stray, HasRow, OwnCount, ReminderOn, L.Kept, L.WellKeyed, ProperRows, Covered, AllSentOnTheirDay,
      ProperStep, CountdownSteps, EachDayIsAsked, EachDayHasARow;
    forall k | 0 <= k < |steps| ensures !Blocked(p, s, steps, k) {
      RunKeepsCover(p, s, steps, k);
      CoveredIsNotBlocked(p, s, steps, k);
    }
    FullCountdown(p, s, steps);
  }

  lemma CoveredIsNotBlocked(p: Plan, s: System, steps: seq<Step>, k: nat)
    requires CountsDown(p) && k < |steps| && Covered(p, Run(s, steps[..k]).db)
    ensures !Blocked(p, s, steps, k)
  {
    if !steps[k].EnqueueStep? {
      return;
    }
    hide HasRow, RequestReminder, CoveredByLog, AlreadySent, ReminderOn, DaysBelow, Asks;
    var req, db := steps[k].req, Run(s, steps[..k]).db;
    if Asks(p, req) && RequestReminder(req) in DayReminders(p) {
      CoverIgnoresTheChannelRow(p, db.logs, req);
      var day := WhichDay(p, DaysBeforeFor(p.sub, p.policy) + 1, RequestReminder(req));
      assert InCountdown(p, day);
    }
  }

  // ---- the exception is real ----

  /**
   * A daily reminder that is claimed before midnight but delivered after it counts as the next
   * day's: the next day's request is held back, and that day never gets its row.
   */
  lemma DeliveryAfterMidnightSuppressesTheNextDay(p: Plan, channelId: nat, day: int, queuedAt: int, sentAt: int,
                                                  owner: string)
    requires CountsDown(p) && -DAY < p.loc < DAY
    requires 1 < day < DaysBeforeFor(p.sub, p.policy)
    requires DaysLeft(p, queuedAt) == day && DaysLeft(p, sentAt) == day - 1
    ensures var steps := [EnqueueStep(DayRequest(p, channelId, day), p.loc, queuedAt), ClaimStep(0, owner, queuedAt),
                          RereadStep(0), FinishStep(0, Delivered, sentAt)]
                         + [EnqueueStep(DayRequest(p, channelId, day - 1), p.loc, sentAt)];
            var s := System(Db([], []), []);
            CountdownSteps(p, steps) && Blocked(p, s, steps, 4)
            && Run(s, steps).db == Run(s, steps[..4]).db
            && |Run(s, steps).db.rows| == 1 && Run(s, steps).db.rows[0].status == Sent
            && HasRow(Run(s, steps).db, ReminderOn(p, day)) && !HasRow(Run(s, steps).db, ReminderOn(p, day - 1))
  {
    hide SentLogBlocks, NewRow, ClaimRow, MarkSent, L.Genuine, L.IsRowOf, L.WellKeyed, RequestOf, RequestKey,
      RequestReminder, ReminderOn, HasRow, DaysLeft, Asks, Enqueue, DaysBelow;
    var s := System(Db([], []), []);
    var a, b := DayRequest(p, channelId, day), DayRequest(p, channelId, day - 1);
    var held := ClaimRow(NewRow(a, queuedAt), owner, queuedAt);
    var front := [EnqueueStep(a, p.loc, queuedAt), ClaimStep(0, owner, queuedAt), RereadStep(0),
                  FinishStep(0, Delivered, sentAt)];
    var steps := front + [EnqueueStep(b, p.loc, sentAt)];
    DayIsAskedFor(p, channelId, day);
    DayIsAskedFor(p, channelId, day - 1);
    DayBelow(p, DaysBeforeFor(p.sub, p.policy) + 1, day - 1);
    DaysHaveTheirOwnReminders(p, day, day - 1);
    NotExpiredYet(p, channelId, day, queuedAt);
    DeliveredAtOnce(a, p.loc, queuedAt, owner, sentAt);
    assert steps[..4] == front;
    LastStep(s, steps);
    var db := MarkSent(Db([held], []), Job(0, held), owner, sentAt);
    assert Run(s, front).db == db;
    LateLogCovers(p, channelId, day, queuedAt, sentAt, owner);
    OnlyItsRow(a, queuedAt, owner, sentAt, ReminderOn(p, day));
    OnlyItsRow(a, queuedAt, owner, sentAt, ReminderOn(p, day - 1));
    EnqueueDoes(db, b, p.loc, sentAt);
  }

  lemma NotExpiredYet(p: Plan, channelId: nat, day: int, now: int)
    requires CountsDown(p) && -DAY < p.loc < DAY && day >= 1 && DaysLeft(p, now) == day
    ensures now < NewRow(DayRequest(p, channelId, day), now).expiresAt.value
  {
    DaysLeftByDay(p, now);
    hide DaysLeft, BillingDay, RequestKey, DaysBeforeFor, TriggerOn;
    var due := BillingDay(p);
    assert LocalDay(Time(now, p.loc)) == due - day;
    assert NormalizeDateUTC(StartOfDay(due, p.loc)).instant == due * DAY;
    assert now < due * DAY + DAY;
  }

  /** Queued, claimed, read back and delivered with nothing in between. */
  lemma DeliveredAtOnce(req: Request, loc: int, queuedAt: int, owner: string, sentAt: int)
    requires queuedAt < NewRow(req, queuedAt).expiresAt.value
    ensures var held := ClaimRow(NewRow(req, queuedAt), owner, queuedAt);
            var steps := [EnqueueStep(req, loc, queuedAt), ClaimStep(0, owner, queuedAt), RereadStep(0),
                          FinishStep(0, Delivered, sentAt)];
            Run(System(Db([], []), []), steps)
            == System(MarkSent(Db([held], []), Job(0, held), owner, sentAt), [Done])
  {
    hide RequestKey, NormalizeDateUTC, MarkSent, AlreadySent;
    var row := NewRow(req, queuedAt);
    var held := ClaimRow(row, owner, queuedAt);
    var a, b, c, d := EnqueueStep(req, loc, queuedAt), ClaimStep(0, owner, queuedAt), RereadStep(0),
      FinishStep(0, Delivered, sentAt);
    var s0 := System(Db([], []), []);
    assert [a, b, c, d][1..] == [b, c, d] && [b, c, d][1..] == [c, d] && [c, d][1..] == [d] && [d][1..] == [];
    assert AlreadySent([], req, loc) == false by { NoLogNoCover(req, loc); }
    var s1 := Next(s0, a);
    assert s1 == System(Db([row], []), []);
    var s2 := Next(s1, b);
    assert s2 == System(Db([held], []), [Claimed(0, owner, 1)]);
    var s3 := Next(s2, c);
    assert s3 == System(Db([held], []), [Holding(Job(0, held), owner)]);
    var s4 := Next(s3, d);
    assert s4 == System(MarkSent(Db([held], []), Job(0, held), owner, sentAt), [Done]);
    assert Run(s4, []) == s4 && Run(s3, [d]) == s4 && Run(s2, [c, d]) == s4 && Run(s1, [b, c, d]) == s4;
  }

  lemma NoLogNoCover(req: Request, loc: int)
    ensures !AlreadySent([], req, loc)
  {
  }

  lemma LateLogCovers(p: Plan, channelId: nat, day: int, queuedAt: int, sentAt: int, owner: string)
    requires CountsDown(p) && -DAY < p.loc < DAY && 1 < day < DaysBeforeFor(p.sub, p.policy)
    requires DaysLeft(p, sentAt) == day - 1
    ensures var held := ClaimRow(NewRow(DayRequest(p, channelId, day), queuedAt), owner, queuedAt);
            var db := MarkSent(Db([held], []), Job(0, held), owner, sentAt);
            AlreadySent(db.logs, DayRequest(p, channelId, day - 1), p.loc)
  {
    hide DaysLeft, SentLogBlocks;
    var req := DayRequest(p, channelId, day);
    var held := ClaimRow(NewRow(req, queuedAt), owner, queuedAt);
    var l := JobLog(Job(0, held), LogSent, "", sentAt);
    NewRowIsFor(p, req, queuedAt);
    DayIsAskedFor(p, channelId, day);
    NormalizingKeepsTheDay(req.notifyDate, 0);
    assert Own(p, held) && ProperRow(p, held);
    WhatADeliveryCovers(p, Job(0, held), sentAt, day - 1);
    CoverAfterOneMoreLog(p, [], l, day - 1);
    assert [] + [l] == [l];
    DayIsAskedFor(p, channelId, day - 1);
    CoverIgnoresTheChannelRow(p, [l], DayRequest(p, channelId, day - 1));
  }

  lemma OnlyItsRow(req: Request, queuedAt: int, owner: string, sentAt: int, m: Reminder)
    ensures var held := ClaimRow(NewRow(req, queuedAt), owner, queuedAt);
            var db := MarkSent(Db([held], []), Job(0, held), owner, sentAt);
            && |db.rows| == 1 && db.rows[0].status == Sent && L.WellKeyed(db.rows)
            && (HasRow(db, m) <==> m == RequestReminder(req))
  {
    hide L.Genuine, L.IsRowOf, RequestReminder, RequestKey;
    var row := NewRow(req, queuedAt);
    var held := ClaimRow(row, owner, queuedAt);
    var db := MarkSent(Db([held], []), Job(0, held), owner, sentAt);
    NewRowStandsFor(req, queuedAt);
    L.FixedRowsKeepKeys([row], db.rows);
    assert db.rows[0] in db.rows;
    SameKey(row, db.rows[0], m);
  }

  lemma SameKey(r: Row, q: Row, m: Reminder)
    requires r.dedupeKey == q.dedupeKey
    ensures L.IsRowOf(r, m) <==> L.IsRowOf(q, m)
  {
  }

  lemma NewRowStandsFor(req: Request, now: int)
    ensures L.WellKeyed([NewRow(req, now)])
    ensures forall m :: L.IsRowOf(NewRow(req, now), m) <==> m == RequestReminder(req)
  {
    hide NewRow, RequestReminder, L.Genuine;
    NewRowReminder(req, now);
  }
}
