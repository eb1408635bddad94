/**
 * A whole manual-renew countdown among everything else that happens to the outbox: which rows it
 * leaves behind, and exactly when it leaves one for each of its days.
 */
module Countdown {
  import opened Basics
  import opened Calendar
  import opened DedupeKeys
  import opened Outbox
  import opened Reminders
  import L = OutboxLedger

  /** One subscription on one channel type, at a fixed offset. */
  datatype Plan = Plan(sub: Subscription, channelType: string, policy: Policy, loc: int)

  /** A manual-renew subscription with daily reminders on and at least one day of warning. */
  ghost predicate CountsDown(p: Plan) {
    && p.sub.status == Active && p.sub.recurring && p.sub.renewalMode == ManualRenew
    && p.sub.nextBillingDate.Some? && NotifyEnabled(p.sub)
    && p.policy.notifyManualRenewDaily && DaysBeforeFor(p.sub, p.policy) > 0
  }

  predicate InCountdown(p: Plan, day: int) {
    0 <= day <= DaysBeforeFor(p.sub, p.policy)
  }

  function TriggerOn(p: Plan, day: int): Trigger {
    if day == DaysBeforeFor(p.sub, p.policy) then DaysBefore
    else if day == 0 && p.policy.notifyOnDueDay then DueDay
    else ManualDaily
  }

  function BillingDay(p: Plan): int
    requires p.sub.nextBillingDate.Some?
  {
    LocalDay(In(p.sub.nextBillingDate.value, p.loc))
  }

  /** The reminder due with day days left. */
  function ReminderOn(p: Plan, day: int): Reminder
    requires p.sub.nextBillingDate.Some?
  {
    var t := TriggerOn(p, day);
    Reminder(p.sub.userId, p.sub.id, p.channelType, t, BillingDay(p),
             if UsesDedupeDate(t) then Some(BillingDay(p) - day) else None)
  }

  /** The request a scan makes for a reminder, on any channel of its type: all dates are days at the plan's offset. */
  function RequestOf(p: Plan, channelId: nat, m: Reminder): Request {
    var dedupeDay := if m.dedupeDay.Some? then m.dedupeDay.value else m.notifyDay;
    Request(m.userId, m.subscriptionId, channelId, m.channelType, m.trigger, StartOfDay(m.notifyDay, p.loc),
            Some(StartOfDay(dedupeDay, p.loc)))
  }

  lemma RequestOfIsForIt(p: Plan, channelId: nat, m: Reminder)
    requires m.dedupeDay.Some? <==> UsesDedupeDate(m.trigger)
    ensures RequestReminder(RequestOf(p, channelId, m)) == m
  {
    NormalizingKeepsTheDay(StartOfDay(m.notifyDay, p.loc), p.loc);
  }

  /** A billing reminder of this subscription, channel type and billing day. */
  predicate OwnReminder(p: Plan, m: Reminder)
    requires p.sub.nextBillingDate.Some?
  {
    && m.userId == p.sub.userId && m.subscriptionId == p.sub.id && m.channelType == p.channelType
    && m.notifyDay == BillingDay(p) && m.trigger !in {ManualEnded, EndingSoon}
  }

  /** The request asks for a billing reminder of the plan. */
  predicate Asks(p: Plan, req: Request)
    requires p.sub.nextBillingDate.Some?
  {
    OwnReminder(p, RequestReminder(req)) && req == RequestOf(p, req.channelId, RequestReminder(req))
  }

  /** Anything else a scan asks for: other subscriptions, channel types, billing days and kinds of reminder. */
  predicate Foreign(p: Plan, req: Request)
    requires p.sub.nextBillingDate.Some?
  {
    !OwnReminder(p, RequestReminder(req))
  }

  lemma DayIsAskedFor(p: Plan, channelId: nat, day: int)
    requires CountsDown(p)
    ensures OwnReminder(p, ReminderOn(p, day))
    ensures var req := RequestOf(p, channelId, ReminderOn(p, day));
            Asks(p, req) && RequestReminder(req) == ReminderOn(p, day)
  {
    hide RequestReminder;
    RequestOfIsForIt(p, channelId, ReminderOn(p, day));
  }

  /** Two days of the countdown never share a reminder. */
  lemma DaysHaveTheirOwnReminders(p: Plan, a: int, b: int)
    requires CountsDown(p) && InCountdown(p, a) && InCountdown(p, b) && a != b
    ensures ReminderOn(p, a) != ReminderOn(p, b)
  {
  }

  /** The reminders of the days 0 .. n - 1. */
  function DaysBelow(p: Plan, n: nat): set<Reminder>
    requires p.sub.nextBillingDate.Some?
  {
    if n == 0 then {} else DaysBelow(p, n - 1) + {ReminderOn(p, n - 1)}
  }

  /** The reminders of the countdown, one for each of its days. */
  function DayReminders(p: Plan): set<Reminder>
    requires p.sub.nextBillingDate.Some? && DaysBeforeFor(p.sub, p.policy) >= 0
  {
    DaysBelow(p, DaysBeforeFor(p.sub, p.policy) + 1)
  }

  lemma {:induction false} DayBelow(p: Plan, n: nat, day: nat)
    requires p.sub.nextBillingDate.Some? && day < n
    ensures ReminderOn(p, day) in DaysBelow(p, n)
  {
    hide ReminderOn;
    if day < n - 1 { DayBelow(p, n - 1, day); }
  }

  lemma {:induction false} WhichDay(p: Plan, n: nat, m: Reminder) returns (day: nat)
    requires p.sub.nextBillingDate.Some? && m in DaysBelow(p, n)
    ensures day < n && m == ReminderOn(p, day)
  {
    hide ReminderOn;
    if m == ReminderOn(p, n - 1) {
      day := n - 1;
    } else {
      day := WhichDay(p, n - 1, m);
    }
  }

  lemma LastDayIsNew(p: Plan, n: nat)
    requires CountsDown(p) && n <= DaysBeforeFor(p.sub, p.policy)
    ensures ReminderOn(p, n) !in DaysBelow(p, n)
  {
    hide ReminderOn;
    if ReminderOn(p, n) in DaysBelow(p, n) {
      var day := WhichDay(p, n, ReminderOn(p, n));
      DaysHaveTheirOwnReminders(p, n, day);
    }
  }

  lemma {:induction false} DayCount(p: Plan, n: nat)
    requires CountsDown(p) && n <= DaysBeforeFor(p.sub, p.policy) + 1
    ensures |DaysBelow(p, n)| == n
  {
    hide ReminderOn;
    if n > 0 {
      DayCount(p, n - 1);
      LastDayIsNew(p, n - 1);
    }
  }

  // ---- rows of the plan ----

  predicate Own(p: Plan, r: Row)
    requires p.sub.nextBillingDate.Some?
  {
    && r.userId == p.sub.userId && r.subscriptionId == p.sub.id && r.channelType == p.channelType
    && LocalDay(r.notifyDate) == BillingDay(p) && r.trigger !in {ManualEnded, EndingSoon}
  }

  function OwnCount(p: Plan, rows: seq<Row>): nat
    requires p.sub.nextBillingDate.Some?
  {
    if rows == [] then 0
    else OwnCount(p, rows[..|rows| - 1]) + (if Own(p, rows[|rows| - 1]) then 1 else 0)
  }

  ghost predicate HasRow(db: Db, m: Reminder) {
    exists r :: r in db.rows && L.IsRowOf(r, m)
  }

  lemma OwnByReminder(p: Plan, r: Row, m: Reminder)
    requires p.sub.nextBillingDate.Some? && L.Genuine(r) && L.IsRowOf(r, m)
    ensures Own(p, r) <==> OwnReminder(p, m)
  {
    var m' := L.RowReminder(r);
  }

  lemma NewRowReminder(req: Request, now: int)
    ensures L.Genuine(NewRow(req, now)) && L.IsRowOf(NewRow(req, now), RequestReminder(req))
  {
    var r := NewRow(req, now);
    assert r.dedupeKey
        == DedupeKey(r.userId, r.subscriptionId, r.channelType, r.trigger, r.notifyDate, RequestDedupeDate(req));
    L.KeysMatchReminders(r, req);
  }

  /** The rows of the plan are one for each of these reminders, and no others. */
  ghost predicate RowsAre(p: Plan, db: Db, ms: set<Reminder>)
    requires p.sub.nextBillingDate.Some?
  {
    && L.WellKeyed(db.rows)
    && OwnCount(p, db.rows) == |ms|
    && (forall m | m in ms :: OwnReminder(p, m))
    && forall m | OwnReminder(p, m) :: HasRow(db, m) <==> m in ms
  }

  lemma {:induction false} OwnRowsCount(p: Plan, rows: seq<Row>, i: nat)
    requires p.sub.nextBillingDate.Some? && i < |rows| && Own(p, rows[i])
    ensures OwnCount(p, rows) > 0
  {
    if i < |rows| - 1 { OwnRowsCount(p, rows[..|rows| - 1], i); }
  }

  lemma NoRowsYet(p: Plan, db: Db)
    requires CountsDown(p) && L.WellKeyed(db.rows) && OwnCount(p, db.rows) == 0
    ensures RowsAre(p, db, {})
  {
    hide Own, OwnReminder, L.IsRowOf, OwnCount, L.Genuine;
    forall m | OwnReminder(p, m) ensures !HasRow(db, m) {
      if HasRow(db, m) {
        var r :| r in db.rows && L.IsRowOf(r, m);
        var i :| 0 <= i < |db.rows| && db.rows[i] == r;
        OwnByReminder(p, r, m);
        OwnRowsCount(p, db.rows, i);
      }
    }
  }

  // ---- one step ----

  lemma AppendedRow(p: Plan, db: Db, db': Db, m: Reminder)
    requires |db'.rows| == |db.rows| + 1 && db'.rows[..|db.rows|] == db.rows
    ensures HasRow(db', m) <==> HasRow(db, m) || L.IsRowOf(db'.rows[|db.rows|], m)
    ensures p.sub.nextBillingDate.Some? ==>
              OwnCount(p, db'.rows) == OwnCount(p, db.rows) + if Own(p, db'.rows[|db.rows|]) then 1 else 0
  {
  }

  /** An enqueue of a reminder without a row and without a covering log appends its row; any other does nothing. */
  lemma EnqueueDoes(db: Db, req: Request, loc: int, now: int)
    requires L.WellKeyed(db.rows)
    ensures var db' := Enqueue(db, req, loc, now);
            && L.WellKeyed(db'.rows) && db'.logs == db.logs
            && db'.rows == if AlreadySent(db.logs, req, loc) || HasRow(db, RequestReminder(req)) then db.rows
                           else db.rows + [NewRow(req, now)]
  {
    hide L.IsRowOf, L.Genuine, AlreadySent, RequestKey, RequestReminder, NewRow;
    L.EnqueueInsertsExactlyNewReminders(db, req, loc, now);
  }

  lemma ReminderIsAsked(p: Plan, db: Db, ms: set<Reminder>, req: Request, now: int)
    requires CountsDown(p) && RowsAre(p, db, ms) && Asks(p, req)
    ensures RowsAre(p, Enqueue(db, req, p.loc, now),
                    if AlreadySent(db.logs, req, p.loc) then ms else ms + {RequestReminder(req)})
  {
    hide L.IsRowOf, L.Genuine, AlreadySent, Enqueue, NewRow, HasRow, L.WellKeyed, RequestReminder, OwnCount, Own,
      OwnReminder;
    var m := RequestReminder(req);
    EnqueueDoes(db, req, p.loc, now);
    var db' := Enqueue(db, req, p.loc, now);
    if AlreadySent(db.logs, req, p.loc) || m in ms {
      assert m in ms ==> ms + {m} == ms;
      SameRows(db, db');
    } else {
      var r := NewRow(req, now);
      assert db'.rows == db.rows + [r] && db'.rows[..|db.rows|] == db.rows && db'.rows[|db.rows|] == r;
      NewRowIsFor(p, req, now);
      AppendedRow(p, db, db', m);
      forall x | OwnReminder(p, x) ensures HasRow(db', x) <==> x in ms + {m} { AppendedRow(p, db, db', x); }
    }
  }

  lemma SameRows(db: Db, db': Db)
    requires db'.rows == db.rows
    ensures forall m :: HasRow(db, m) <==> HasRow(db', m)
  {
  }

  lemma NewRowIsFor(p: Plan, req: Request, now: int)
    requires CountsDown(p)
    ensures Own(p, NewRow(req, now)) <==> OwnReminder(p, RequestReminder(req))
    ensures forall m :: L.IsRowOf(NewRow(req, now), m) <==> m == RequestReminder(req)
  {
    hide NewRow, Own, RequestReminder, L.Genuine;
    NewRowReminder(req, now);
    OwnByReminder(p, NewRow(req, now), RequestReminder(req));
  }

  lemma OthersAreAsked(p: Plan, db: Db, ms: set<Reminder>, req: Request, now: int)
    requires CountsDown(p) && RowsAre(p, db, ms) && Foreign(p, req)
    ensures RowsAre(p, Enqueue(db, req, p.loc, now), ms)
  {
    hide L.IsRowOf, L.Genuine, AlreadySent, Enqueue, NewRow, HasRow, L.WellKeyed, OwnCount, RequestReminder, Own,
      OwnReminder;
    EnqueueDoes(db, req, p.loc, now);
    var db' := Enqueue(db, req, p.loc, now);
    if db'.rows == db.rows {
      SameRows(db, db');
    } else {
      var r := NewRow(req, now);
      assert db'.rows == db.rows + [r] && db'.rows[..|db.rows|] == db.rows && db'.rows[|db.rows|] == r;
      NewRowIsFor(p, req, now);
      AppendedRow(p, db, db', RequestReminder(req));
      forall x | OwnReminder(p, x) ensures HasRow(db', x) <==> HasRow(db, x) { AppendedRow(p, db, db', x); }
    }
  }

  lemma {:induction false} OwnCountIsFixed(p: Plan, rows: seq<Row>, rows': seq<Row>)
    requires p.sub.nextBillingDate.Some? && |rows'| == |rows|
    requires forall i | 0 <= i < |rows| :: Fixed(rows'[i]) == Fixed(rows[i])
    ensures OwnCount(p, rows') == OwnCount(p, rows)
  {
    if rows != [] {
      var n := |rows| - 1;
      OwnCountIsFixed(p, rows[..n], rows'[..n]);
      assert Own(p, Fixed(rows[n])) == Own(p, rows[n]) && Own(p, Fixed(rows'[n])) == Own(p, rows'[n]);
    }
  }

  lemma SameKeysSameReminders(db: Db, db': Db, m: Reminder)
    requires |db'.rows| >= |db.rows|
    requires forall i | 0 <= i < |db.rows| :: Fixed(db'.rows[i]) == Fixed(db.rows[i])
    ensures HasRow(db, m) ==> HasRow(db', m)
  {
    if HasRow(db, m) {
      var r :| r in db.rows && L.IsRowOf(r, m);
      var i :| 0 <= i < |db.rows| && db.rows[i] == r;
      assert Fixed(db'.rows[i]).dedupeKey == Fixed(r).dedupeKey;
      assert db'.rows[i] in db'.rows;
    }
  }

  /** Expiring, claiming, reading back and completing add, remove and rename no row. */
  lemma OtherStepsKeepRows(p: Plan, s: System, step: Step, ms: set<Reminder>)
    requires CountsDown(p) && RowsAre(p, s.db, ms) && !step.EnqueueStep?
    ensures RowsAre(p, Next(s, step).db, ms)
  {
    hide HasRow, OwnCount, L.WellKeyed, OwnReminder, Fixed, Next;
    var db, db' := s.db, Next(s, step).db;
    OnlyEnqueueAppends(s, step);
    L.FixedRowsKeepKeys(db.rows, db'.rows);
    OwnCountIsFixed(p, db.rows, db'.rows);
    forall m ensures HasRow(db, m) <==> HasRow(db', m) {
      SameKeysSameReminders(db, db', m);
      SameKeysSameReminders(db', db, m);
    }
  }

  lemma OnlyEnqueueAppends(s: System, step: Step)
    ensures |Next(s, step).db.rows| >= |s.db.rows|
    ensures !step.EnqueueStep? ==> |Next(s, step).db.rows| == |s.db.rows|
    ensures forall i | 0 <= i < |s.db.rows| :: Fixed(Next(s, step).db.rows[i]) == Fixed(s.db.rows[i])
  {
    hide Fixed;
    forall i | 0 <= i < |s.db.rows| ensures Fixed(Next(s, step).db.rows[i]) == Fixed(s.db.rows[i]) {
      L.StepGrows(s, step, i);
    }
  }

  // ---- sent logs that hold a reminder back ----

  /** A sent log already covers the reminder: an enqueue for it does nothing. */
  ghost predicate CoveredByLog(p: Plan, logs: seq<Log>, m: Reminder) {
    AlreadySent(logs, RequestOf(p, 0, m), p.loc)
  }

  lemma CoverIgnoresTheChannelRow(p: Plan, logs: seq<Log>, req: Request)
    requires CountsDown(p) && Asks(p, req)
    ensures AlreadySent(logs, req, p.loc) <==> CoveredByLog(p, logs, RequestReminder(req))
  {
    var zero := RequestOf(p, 0, RequestReminder(req));
    assert req == zero.(channelId := req.channelId);
    assert forall l :: SentLogBlocks(l, req, p.loc) == SentLogBlocks(l, zero, p.loc);
  }

  lemma LogsGrow(s: System, step: Step)
    ensures s.db.logs <= Next(s, step).db.logs
  {
  }

  lemma CoverStays(p: Plan, logs: seq<Log>, logs': seq<Log>, m: Reminder)
    requires logs <= logs' && CoveredByLog(p, logs, m)
    ensures CoveredByLog(p, logs', m)
  {
    hide SentLogBlocks;
    var l :| l in logs && SentLogBlocks(l, RequestOf(p, 0, m), p.loc);
    assert l in logs';
  }

  // ---- whole runs ----

  /** Whatever is enqueued asks for a billing reminder of the plan, or has nothing to do with it. */
  ghost predicate CountdownSteps(p: Plan, steps: seq<Step>)
    requires p.sub.nextBillingDate.Some?
  {
    forall k | 0 <= k < |steps| && steps[k].EnqueueStep? ::
      steps[k].loc == p.loc && (Asks(p, steps[k].req) || Foreign(p, steps[k].req))
  }

  predicate AsksFor(p: Plan, step: Step, day: int)
    requires p.sub.nextBillingDate.Some?
  {
    step.EnqueueStep? && Asks(p, step.req) && RequestReminder(step.req) == ReminderOn(p, day)
  }

  ghost predicate DayIsAsked(p: Plan, steps: seq<Step>, day: int)
    requires p.sub.nextBillingDate.Some?
  {
    exists k :: 0 <= k < |steps| && AsksFor(p, steps[k], day)
  }

  ghost predicate EachDayIsAsked(p: Plan, steps: seq<Step>)
    requires p.sub.nextBillingDate.Some?
  {
    forall day | InCountdown(p, day) :: DayIsAsked(p, steps, day)
  }

  /** The reminders asked for at a moment when no sent log held them back. */
  ghost function Filled(p: Plan, s: System, steps: seq<Step>): set<Reminder>
    requires p.sub.nextBillingDate.Some?
  {
    if steps == [] then {}
    else
      var n, step := |steps| - 1, steps[|steps| - 1];
      var before := Filled(p, s, steps[..n]);
      if step.EnqueueStep? && Asks(p, step.req)
         && !CoveredByLog(p, Run(s, steps[..n]).db.logs, RequestReminder(step.req))
      then before + {RequestReminder(step.req)}
      else before
  }

  lemma LastStep(s: System, steps: seq<Step>)
    requires steps != []
    ensures var n := |steps| - 1; Run(s, steps) == Next(Run(s, steps[..n]), steps[n])
  {
    var n := |steps| - 1;
    assert steps == steps[..n] + [steps[n]] && [steps[n]][1..] == [];
    RunAppend(s, steps[..n], [steps[n]]);
    assert Run(Next(Run(s, steps[..n]), steps[n]), []) == Next(Run(s, steps[..n]), steps[n]);
  }

  /** At any moment of any run, the rows of the plan are those of exactly the filled reminders. */
  lemma {:induction false} RowsFollowTheRequests(p: Plan, s: System, steps: seq<Step>)
    requires CountsDown(p) && CountdownSteps(p, steps) && RowsAre(p, s.db, {})
    ensures RowsAre(p, Run(s, steps).db, Filled(p, s, steps))
  {
    hide RowsAre, Asks, Foreign, CoveredByLog, AlreadySent, RequestReminder;
    if steps != [] {
      var n, step := |steps| - 1, steps[|steps| - 1];
      RowsFollowTheRequests(p, s, steps[..n]);
      LastStep(s, steps);
      var before, ms := Run(s, steps[..n]), Filled(p, s, steps[..n]);
      if !step.EnqueueStep? {
        OtherStepsKeepRows(p, before, step, ms);
      } else if Asks(p, step.req) {
        CoverIgnoresTheChannelRow(p, before.db.logs, step.req);
        ReminderIsAsked(p, before.db, ms, step.req, step.now);
      } else {
        OthersAreAsked(p, before.db, ms, step.req, step.now);
      }
    }
  }

  lemma {:induction false} FilledGrows(p: Plan, s: System, steps: seq<Step>, k: nat)
    requires p.sub.nextBillingDate.Some? && k <= |steps|
    ensures Filled(p, s, steps[..k]) <= Filled(p, s, steps)
    ensures Run(s, steps[..k]).db.logs <= Run(s, steps).db.logs
  {
    hide CoveredByLog, Asks, RequestReminder;
    if k == |steps| {
      assert steps[..k] == steps;
    } else {
      var n := |steps| - 1;
      assert steps[..n][..k] == steps[..k];
      FilledGrows(p, s, steps[..n], k);
      LastStep(s, steps);
      LogsGrow(Run(s, steps[..n]), steps[n]);
    }
  }

  /** Everything filled was asked for by some step while no log covered it. */
  lemma {:induction false} FilledByAStep(p: Plan, s: System, steps: seq<Step>, m: Reminder) returns (k: nat)
    requires CountsDown(p) && m in Filled(p, s, steps)
    ensures k < |steps| && steps[k].EnqueueStep? && Asks(p, steps[k].req) && RequestReminder(steps[k].req) == m
    ensures !AlreadySent(Run(s, steps[..k]).db.logs, steps[k].req, p.loc)
  {
    hide CoveredByLog, Asks, RequestReminder, AlreadySent;
    var n := |steps| - 1;
    if m in Filled(p, s, steps[..n]) {
      k := FilledByAStep(p, s, steps[..n], m);
      assert steps[..n][..k] == steps[..k];
    } else {
      k := n;
      CoverIgnoresTheChannelRow(p, Run(s, steps[..n]).db.logs, steps[n].req);
    }
  }

  /** The k-th step asks for a reminder of the plan that has no row, and a sent log holds it back. */
  ghost predicate HeldBack(p: Plan, s: System, steps: seq<Step>, k: nat)
    requires p.sub.nextBillingDate.Some? && k < |steps|
  {
    && steps[k].EnqueueStep? && Asks(p, steps[k].req)
    && var db := Run(s, steps[..k]).db;
       AlreadySent(db.logs, steps[k].req, p.loc) && !HasRow(db, RequestReminder(steps[k].req))
  }

  /** A reminder that was held back once is held back for good. */
  lemma {:induction false} HeldBackIsLost(p: Plan, s: System, steps: seq<Step>, k: nat)
    requires CountsDown(p) && CountdownSteps(p, steps) && RowsAre(p, s.db, {})
    requires k < |steps| && HeldBack(p, s, steps, k)
    ensures RequestReminder(steps[k].req) !in Filled(p, s, steps)
  {
    hide CoveredByLog, AlreadySent, HasRow, RequestReminder, L.WellKeyed, OwnCount, OwnReminder;
    var n, m := |steps| - 1, RequestReminder(steps[k].req);
    CoverIgnoresTheChannelRow(p, Run(s, steps[..k]).db.logs, steps[k].req);
    if k == n {
      RowsFollowTheRequests(p, s, steps[..n]);
    } else {
      assert steps[..n][..k] == steps[..k];
      HeldBackIsLost(p, s, steps[..n], k);
      FilledGrows(p, s, steps[..n], k);
      CoverStays(p, Run(s, steps[..k]).db.logs, Run(s, steps[..n]).db.logs, m);
    }
  }

  /** A reminder that is asked for and not held back is filled. */
  lemma NotHeldBackIsFilled(p: Plan, s: System, steps: seq<Step>, k: nat)
    requires CountsDown(p) && CountdownSteps(p, steps) && RowsAre(p, s.db, {})
    requires k < |steps| && steps[k].EnqueueStep? && Asks(p, steps[k].req) && !HeldBack(p, s, steps, k)
    ensures RequestReminder(steps[k].req) in Filled(p, s, steps)
  {
    hide CoveredByLog, AlreadySent, HasRow, RequestReminder, L.WellKeyed, OwnCount, OwnReminder;
    var m := RequestReminder(steps[k].req);
    CoverIgnoresTheChannelRow(p, Run(s, steps[..k]).db.logs, steps[k].req);
    RowsFollowTheRequests(p, s, steps[..k]);
    assert steps[..k + 1][..k] == steps[..k];
    assert m in Filled(p, s, steps[..k + 1]) by {
      if CoveredByLog(p, Run(s, steps[..k]).db.logs, m) {
        FilledGrows(p, s, steps[..k + 1], k);
      }
    }
    FilledGrows(p, s, steps, k + 1);
  }

  // ---- the countdown as a whole ----

  /** The k-th step asks for a day of the countdown that has no row, and a sent log holds it back. */
  ghost predicate Blocked(p: Plan, s: System, steps: seq<Step>, k: nat)
    requires p.sub.nextBillingDate.Some? && DaysBeforeFor(p.sub, p.policy) >= 0 && k < |steps|
  {
    HeldBack(p, s, steps, k) && RequestReminder(steps[k].req) in DayReminders(p)
  }

  /** The k-th step asks for a billing reminder of the plan that is that of no day of the countdown, and gets it. */
  ghost predicate Stray(p: Plan, s: System, steps: seq<Step>, k: nat)
    requires p.sub.nextBillingDate.Some? && DaysBeforeFor(p.sub, p.policy) >= 0 && k < |steps|
  {
    && steps[k].EnqueueStep? && Asks(p, steps[k].req) && RequestReminder(steps[k].req) !in DayReminders(p)
    && !AlreadySent(Run(s, steps[..k]).db.logs, steps[k].req, p.loc)
  }

  ghost predicate EachDayHasARow(p: Plan, db: Db)
    requires p.sub.nextBillingDate.Some?
  {
    forall day | InCountdown(p, day) :: HasRow(db, ReminderOn(p, day))
  }

  lemma {:induction false} SubsetOfSameSize<T>(a: set<T>, b: set<T>)
    requires a <= b
    ensures |a| <= |b| && (|a| == |b| ==> a == b)
  {
    if a != {} {
      var x :| x in a;
      SubsetOfSameSize(a - {x}, b - {x});
    }
  }

  /**
   * A countdown in which every day is asked for: each day has its row in the end exactly when no
   * request of a day without a row met a sent log that covers it; and there is no other row, so
   * that they are daysBefore + 1, exactly when in addition nothing was asked for, uncovered, that
   * is not for a day. However often each day is asked for, whatever else scans, workers and
   * expiry do in between, and whatever logs there were before.
   */
  lemma FullCountdown(p: Plan, s: System, steps: seq<Step>)
    requires CountsDown(p) && CountdownSteps(p, steps)
    requires L.WellKeyed(s.db.rows) && OwnCount(p, s.db.rows) == 0
    requires EachDayIsAsked(p, steps)
    ensures var db, rows := Run(s, steps).db, DaysBeforeFor(p.sub, p.policy) + 1;
            && (EachDayHasARow(p, db) <==> forall k | 0 <= k < |steps| :: !Blocked(p, s, steps, k))
            && (EachDayHasARow(p, db) && OwnCount(p, db.rows) == rows
                <==> forall k | 0 <= k < |steps| :: !Blocked(p, s, steps, k) && !Stray(p, s, steps, k))
            && ((forall k | 0 <= k < |steps| :: !Stray(p, s, steps, k)) ==>
                  (OwnCount(p, db.rows) == rows <==> forall k | 0 <= k < |steps| :: !Blocked(p, s, steps, k)))
  {
    hide Blocked, Stray, HasRow, OwnCount, L.WellKeyed, OwnReminder, EachDayHasARow, Filled, CountdownSteps,
      EachDayIsAsked, DaysBelow;
    NoRowsYet(p, s.db);
    RowsFollowTheRequests(p, s, steps);
    var days, filled := DayReminders(p), Filled(p, s, steps);
    DayCount(p, DaysBeforeFor(p.sub, p.policy) + 1);
    EachDayMeansAllFilled(p, Run(s, steps).db, filled);
    BlockedMeansNotFilled(p, s, steps);
    StrayIsFilled(p, s, steps);
    if days <= filled { SubsetOfSameSize(days, filled); }
    if filled <= days { SubsetOfSameSize(filled, days); }
  }

  lemma BlockedMeansNotFilled(p: Plan, s: System, steps: seq<Step>)
    requires CountsDown(p) && CountdownSteps(p, steps) && RowsAre(p, s.db, {})
    requires EachDayIsAsked(p, steps)
    ensures DayReminders(p) <= Filled(p, s, steps) <==> forall k | 0 <= k < |steps| :: !Blocked(p, s, steps, k)
  {
    hide HeldBack, Asks, RowsAre, ReminderOn, RequestReminder, Filled, CountdownSteps;
    if k :| 0 <= k < |steps| && Blocked(p, s, steps, k) {
      StepHeldBack(p, s, steps, k);
      HeldBackIsLost(p, s, steps, k);
    } else {
      forall m | m in DayReminders(p) ensures m in Filled(p, s, steps) {
        var day := WhichDay(p, DaysBeforeFor(p.sub, p.policy) + 1, m);
        assert InCountdown(p, day) && DayIsAsked(p, steps, day);
        var k :| 0 <= k < |steps| && AsksFor(p, steps[k], day);
        assert !Blocked(p, s, steps, k);
        NotHeldBackIsFilled(p, s, steps, k);
      }
    }
  }

  lemma StepHeldBack(p: Plan, s: System, steps: seq<Step>, k: nat)
    requires p.sub.nextBillingDate.Some? && k < |steps| && HeldBack(p, s, steps, k)
    ensures steps[k].EnqueueStep?
  {
  }

  lemma EachDayMeansAllFilled(p: Plan, db: Db, filled: set<Reminder>)
    requires CountsDown(p) && RowsAre(p, db, filled)
    ensures EachDayHasARow(p, db) <==> DayReminders(p) <= filled
  {
    hide HasRow, OwnCount, L.WellKeyed, ReminderOn, OwnReminder, DaysBelow;
    var n := DaysBeforeFor(p.sub, p.policy) + 1;
    forall day | InCountdown(p, day)
      ensures ReminderOn(p, day) in DayReminders(p)
              && (HasRow(db, ReminderOn(p, day)) <==> ReminderOn(p, day) in filled)
    {
      DayIsAskedFor(p, 0, day);
      DayBelow(p, n, day);
    }
    if EachDayHasARow(p, db) {
      forall m | m in DayReminders(p) ensures m in filled {
        var day := WhichDay(p, n, m);
        assert InCountdown(p, day);
      }
    }
  }

  lemma StrayIsFilled(p: Plan, s: System, steps: seq<Step>)
    requires CountsDown(p) && CountdownSteps(p, steps) && RowsAre(p, s.db, {})
    ensures Filled(p, s, steps) <= DayReminders(p) <==> forall k | 0 <= k < |steps| :: !Stray(p, s, steps, k)
  {
    hide HasRow, OwnCount, L.WellKeyed, ReminderOn, OwnReminder, DayReminders, RequestReminder, AlreadySent, RowsAre,
      Asks;
    if k :| 0 <= k < |steps| && Stray(p, s, steps, k) {
      assert !HeldBack(p, s, steps, k);
      NotHeldBackIsFilled(p, s, steps, k);
    } else {
      forall m | m in Filled(p, s, steps) ensures m in DayReminders(p) {
        var k := FilledByAStep(p, s, steps, m);
        assert !Stray(p, s, steps, k);
      }
    }
  }
}
