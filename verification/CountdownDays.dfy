/** The whole chain of a countdown, from the scan's date through insertion and check to the send. */
module CountdownDays {
  import opened Basics
  import opened Calendar
  import opened DedupeKeys
  import opened Outbox
  import opened Reminders
  import opened Countdown
  import opened CountdownDelivery
  import opened CountdownScans
  import L = OutboxLedger
  import S = OutboxService

  // ---- rows carry the date of their insertion ----

  ghost predicate DatedByInsertion(p: Plan, r: Row)
    requires p.sub.nextBillingDate.Some?
  {
    Own(p, r) && r.trigger == ManualDaily ==> DatedFor(r, LocalDay(Time(r.scheduledFor, p.loc)))
  }

  ghost predicate RowsDated(p: Plan, db: Db)
    requires p.sub.nextBillingDate.Some?
  {
    forall i | 0 <= i < |db.rows| :: DatedByInsertion(p, db.rows[i])
  }

  /** A daily reminder of the plan is inserted on the local day it is dated by. */
  predicate InsertedOnItsDay(p: Plan, step: Step)
    requires p.sub.nextBillingDate.Some?
  {
    step.EnqueueStep? && OwnReminder(p, RequestReminder(step.req)) && step.req.trigger == ManualDaily ==>
      RequestReminder(step.req).dedupeDay == Some(LocalDay(Time(step.now, p.loc)))
  }

  lemma NoOwnRowIsDated(p: Plan, db: Db)
    requires p.sub.nextBillingDate.Some? && OwnCount(p, db.rows) == 0
    ensures RowsDated(p, db)
  {
    forall i | 0 <= i < |db.rows| ensures !Own(p, db.rows[i]) {
      if Own(p, db.rows[i]) { OwnRowsCount(p, db.rows, i); }
    }
  }

  lemma SameDating(p: Plan, r: Row, q: Row)
    requires p.sub.nextBillingDate.Some? && Fixed(r) == Fixed(q)
    ensures DatedByInsertion(p, r) <==> DatedByInsertion(p, q)
    ensures r.scheduledFor == q.scheduledFor
  {
    SameRow(r, q);
    assert Fixed(r).dedupeKey == Fixed(q).dedupeKey && Fixed(r).scheduledFor == Fixed(q).scheduledFor;
  }

  lemma NewRowIsDated(p: Plan, req: Request, loc: int, now: int)
    requires CountsDown(p) && InsertedOnItsDay(p, EnqueueStep(req, loc, now))
    ensures DatedByInsertion(p, NewRow(req, now))
  {
    NewRowIsFor(p, req, now);
    hide L.IsRowOf, RequestReminder, Own, OwnReminder;
    assert NewRow(req, now).trigger == req.trigger && NewRow(req, now).scheduledFor == now;
  }

  lemma StepKeepsDates(p: Plan, s: System, step: Step)
    requires CountsDown(p) && RowsDated(p, s.db) && InsertedOnItsDay(p, step)
    ensures RowsDated(p, Next(s, step).db)
  {
    hide Fixed, DatedByInsertion, InsertedOnItsDay, NewRow, Enqueue;
    var db' := Next(s, step).db;
    OnlyEnqueueAppends(s, step);
    if step.EnqueueStep? {
      L.EnqueueShape(s.db, step.req, step.loc, step.now);
      assert step == EnqueueStep(step.req, step.loc, step.now);
      NewRowIsDated(p, step.req, step.loc, step.now);
    }
    forall i | 0 <= i < |db'.rows| ensures DatedByInsertion(p, db'.rows[i]) {
      if i < |s.db.rows| { SameDating(p, s.db.rows[i], db'.rows[i]); }
    }
  }

  // ---- a send follows its check ----

  /** A row that is delivered passed its check, and the send is recorded on the local day the check read. */
  ghost predicate SentAsChecked(p: Plan, s: System, step: Step) {
    Delivers(s, step) ==>
      exists subscription, policy, now, at ::
        PassedAndSent(s.workers[step.worker].job.row, subscription, policy, now, at, step.now, p.loc)
  }

  ghost predicate PassedAndSent(row: Row, subscription: Lookup<Subscription>, policy: Lookup<Policy>, now: int,
                                at: Readings, sentAt: int, loc: int)
  {
    && Decide(row, subscription, policy, now, at, loc) == Deliver
    && LocalDay(Time(sentAt, loc)) == LocalDay(Time(at.today, loc))
  }

  lemma PassedOnItsDay(row: Row, subscription: Lookup<Subscription>, policy: Lookup<Policy>, now: int, at: Readings,
                       loc: int)
    requires row.trigger == ManualDaily && Decide(row, subscription, policy, now, at, loc) == Deliver
    ensures LocalDay(Time(at.today, loc)) == LocalDay(Time(row.scheduledFor, loc))
  {
    assert OnScheduledDay(row, at.today, loc);
  }

  lemma CheckedSendIsOnItsDay(p: Plan, s: System, step: Step)
    requires CountsDown(p) && L.Kept(s) && RowsDated(p, s.db) && SentAsChecked(p, s, step)
    ensures SentOnItsDay(p, s, step)
  {
    hide L.RowKept, Fixed, DatedFor, Decide, Own;
    if Delivers(s, step) && DeliveredRow(s, step).trigger == ManualDaily {
      var job, row := s.workers[step.worker].job, DeliveredRow(s, step);
      assert L.WorkerKept(s, s.workers[step.worker]);
      SameRow(job.row, row);
      SameDating(p, job.row, row);
      var subscription, policy, now, at :|
        PassedAndSent(job.row, subscription, policy, now, at, step.now, p.loc);
      PassedOnItsDay(job.row, subscription, policy, now, at, p.loc);
      assert DatedByInsertion(p, s.db.rows[job.id]);
    }
  }

  ghost predicate AllSentAsChecked(p: Plan, s: System, steps: seq<Step>) {
    forall k | 0 <= k < |steps| :: SentAsChecked(p, Run(s, steps[..k]), steps[k])
  }

  lemma {:induction false} RunKeepsDates(p: Plan, s: System, steps: seq<Step>, k: nat)
    requires CountsDown(p) && RowsDated(p, s.db) && k <= |steps|
    requires forall i | 0 <= i < |steps| :: InsertedOnItsDay(p, steps[i])
    ensures RowsDated(p, Run(s, steps[..k]).db)
  {
    hide RowsDated, InsertedOnItsDay;
    if k > 0 {
      RunKeepsDates(p, s, steps, k - 1);
      assert steps[..k][..k - 1] == steps[..k - 1];
      LastStep(s, steps[..k]);
      StepKeepsDates(p, Run(s, steps[..k - 1]), steps[k - 1]);
    }
  }

  /** Inserted on the day of the date, checked by the dispatcher, and sent on the day of the check: on its own day. */
  lemma CheckedSendsAreOnTheirDay(p: Plan, s: System, steps: seq<Step>)
    requires CountsDown(p) && L.Kept(s) && RowsDated(p, s.db) && AllSentAsChecked(p, s, steps)
    requires forall i | 0 <= i < |steps| :: InsertedOnItsDay(p, steps[i])
    ensures AllSentOnTheirDay(p, s, steps)
  {
    hide L.Kept, RowsDated, SentAsChecked, SentOnItsDay, InsertedOnItsDay;
    forall k | 0 <= k < |steps| ensures SentOnItsDay(p, Run(s, steps[..k]), steps[k]) {
      L.RunKeeps(s, steps[..k]);
      RunKeepsDates(p, s, steps, k);
      CheckedSendIsOnItsDay(p, Run(s, steps[..k]), steps[k]);
    }
  }

  // ---- scans within a day ----

  /** Every reading of the scan shows one local day. */
  ghost predicate WithinADay(scan: S.Scan, loc: int) {
    forall j | 0 <= j < |scan.subs| :: LocalDay(Time(scan.counted(j), loc)) == LocalDay(Time(scan.today, loc))
  }

  /** Every enqueue step comes from a scan and inserts on that scan's local day. */
  ghost predicate EnqueuedWithinADay(scans: seq<S.Scan>, loc: int, steps: seq<Step>) {
    forall k | 0 <= k < |steps| && steps[k].EnqueueStep? ::
      steps[k].loc == loc && AskedOnTheDay(scans, loc, steps[k].req, steps[k].now)
  }

  ghost predicate AskedOnTheDay(scans: seq<S.Scan>, loc: int, req: Request, now: int) {
    exists i ::
      && 0 <= i < |scans| && req in S.ScanRequests(scans[i], loc)
      && LocalDay(Time(now, loc)) == LocalDay(Time(scans[i].today, loc))
  }

  lemma ScanDatesItsRequests(p: Plan, scan: S.Scan, req: Request)
    requires CountsDown(p) && ScanSees(p, scan) && req in S.ScanRequests(scan, p.loc) && Asks(p, req)
    requires req.trigger == ManualDaily
    ensures RequestReminder(req).dedupeDay == Some(LocalDay(Time(scan.today, p.loc)))
  {
    hide S.RequestsFor, S.OnChannels, S.UpTo, Asks, BillingTriggers, NormalizeDateUTC;
    var pass, i, m := S.WhereAsked(scan, p.loc, req);
    var sub, c, at := S.Subs(pass, scan)[i], scan.channels[m], Readings(scan.today, scan.counted(i));
    AskedByItsOwnScan(p, pass, sub, c, scan.policy, at, req);
    NormalizingKeepsTheDay(Time(scan.today, p.loc), p.loc);
  }

  lemma EnqueuedOnTheirDay(p: Plan, scans: seq<S.Scan>, steps: seq<Step>)
    requires CountsDown(p) && (forall i | 0 <= i < |scans| :: ScanSees(p, scans[i]))
    requires EnqueuedWithinADay(scans, p.loc, steps)
    ensures EnqueuedBy(scans, p.loc, steps)
    ensures forall k | 0 <= k < |steps| :: InsertedOnItsDay(p, steps[k])
  {
    hide ScanSees, S.ScanRequests, Asks, Foreign, RequestReminder, OwnReminder;
    forall k | 0 <= k < |steps| && steps[k].EnqueueStep?
      ensures AskedBySome(scans, p.loc, steps[k].req) && InsertedOnItsDay(p, steps[k])
    {
      var req := steps[k].req;
      assert AskedOnTheDay(scans, p.loc, req, steps[k].now);
      var i :| 0 <= i < |scans| && req in S.ScanRequests(scans[i], p.loc)
               && LocalDay(Time(steps[k].now, p.loc)) == LocalDay(Time(scans[i].today, p.loc));
      assert AskedBySome(scans, p.loc, req);
      ScanRequestsFit(p, scans[i]);
      if OwnReminder(p, RequestReminder(req)) && req.trigger == ManualDaily {
        FittingOwnAsks(p, req);
        ScanDatesItsRequests(p, scans[i], req);
      }
    }
  }

  lemma FittingOwnAsks(p: Plan, req: Request)
    requires p.sub.nextBillingDate.Some? && Fitting(p, req) && OwnReminder(p, RequestReminder(req))
    ensures Asks(p, req)
  {
  }

  /**
   * From end to end: scanned on each of its days by scans that start and insert within one local
   * day, with every delivered reminder checked by the dispatcher and sent on the day of its check,
   * a countdown leaves exactly daysBefore + 1 rows, one for each of its days; under every
   * interleaving with everything else.
   */
  lemma UndisturbedCountdown(p: Plan, s: System, steps: seq<Step>, scans: seq<S.Scan>)
    requires CountsDown(p) && -DAY < p.loc < DAY
    requires forall i | 0 <= i < |scans| :: ScanSees(p, scans[i]) && WithinADay(scans[i], p.loc)
    requires EnqueuedWithinADay(scans, p.loc, steps) && ScannedDaily(p, scans, steps)
    requires L.Kept(s) && L.WellKeyed(s.db.rows) && ProperRows(p, s.db) && OwnCount(p, s.db.rows) == 0
    requires Covered(p, s.db) && AllSentAsChecked(p, s, steps)
    ensures EachDayHasARow(p, Run(s, steps).db)
    ensures OwnCount(p, Run(s, steps).db.rows) == DaysBeforeFor(p.sub, p.policy) + 1
  {
    hide ScanSees, EnqueuedWithinADay, EnqueuedBy, ScannedDaily, L.Kept, L.WellKeyed, OwnCount, ProperRows, Covered,
      AllSentAsChecked, AllSentOnTheirDay, InsertedOnItsDay, RowsDated, EachDayHasARow, Stray;
    EnqueuedOnTheirDay(p, scans, steps);
    NoOwnRowIsDated(p, s.db);
    CheckedSendsAreOnTheirDay(p, s, steps);
    OneDayScansAreNotStray(p, s, steps, scans);
    TimelyScannedCountdown(p, s, steps, scans);
  }
}
