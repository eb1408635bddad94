/** Scans of a countdown: any subscriptions, any channels, midnights inside the scan included. */
module CountdownScans {
  import opened Basics
  import opened Calendar
  import opened DedupeKeys
  import opened Outbox
  import opened Reminders
  import opened Countdown
  import opened CountdownDelivery
  import L = OutboxLedger
  import S = OutboxService

  // ---- what a scan asks of the plan ----

  /**
   * The day a scan with these readings is for: a daily reminder is dated by the scan's date, the
   * others by the day the triggers were counted on.
   */
  function ScanDay(p: Plan, at: Readings): int
    requires p.sub.nextBillingDate.Some?
  {
    if TriggerOn(p, DaysLeft(p, at.counted)) == ManualDaily then DaysLeft(p, at.today) else DaysLeft(p, at.counted)
  }

  /** The trigger counted is the trigger of the day the scan is for: true unless midnight passes inside the scan. */
  predicate Straight(p: Plan, at: Readings)
    requires p.sub.nextBillingDate.Some?
  {
    InCountdown(p, DaysLeft(p, at.counted)) ==>
      InCountdown(p, ScanDay(p, at)) && TriggerOn(p, ScanDay(p, at)) == TriggerOn(p, DaysLeft(p, at.counted))
  }

  lemma OneDayIsStraight(p: Plan, at: Readings)
    requires CountsDown(p) && LocalDay(Time(at.today, p.loc)) == LocalDay(Time(at.counted, p.loc))
    ensures Straight(p, at) && ScanDay(p, at) == DaysLeft(p, at.counted)
  {
  }

  /** On one channel, a scan makes exactly one request on a countdown day and none outside. */
  lemma OneRequestPerChannel(p: Plan, c: Channel, at: Readings)
    requires CountsDown(p)
    ensures EndingRequests(p.sub, c, p.policy, at, p.loc) == []
    ensures BillingRequests(p.sub, c, p.policy, at, p.loc)
            == if InCountdown(p, DaysLeft(p, at.counted))
               then [BillingRequest(p.sub, c, TriggerOn(p, DaysLeft(p, at.counted)), at.today, p.loc)]
               else []
  {
    hide DaysUntilFrom;
    var day := DaysLeft(p, at.counted);
    assert BillingTriggers(p.sub, p.policy, at.counted, p.loc)
        == if InCountdown(p, day) then [TriggerOn(p, day)] else [];
  }

  /** The request made is that of the scan's day, exactly when the scan is straight. */
  lemma RequestIsForTheScanDay(p: Plan, c: Channel, at: Readings)
    requires CountsDown(p) && c.channelType == p.channelType && InCountdown(p, DaysLeft(p, at.counted))
    ensures var req := BillingRequest(p.sub, c, TriggerOn(p, DaysLeft(p, at.counted)), at.today, p.loc);
            && Asks(p, req)
            && (Straight(p, at) ==> RequestReminder(req) == ReminderOn(p, ScanDay(p, at)))
            && (Straight(p, at) <==> RequestReminder(req) in DayReminders(p))
  {
    hide DaysLeft, DaysBelow;
    DaysLeftByDay(p, at.today);
    DaysLeftByDay(p, at.counted);
    var trigger, day := TriggerOn(p, DaysLeft(p, at.counted)), ScanDay(p, at);
    var req := BillingRequest(p.sub, c, trigger, at.today, p.loc);
    NormalizingKeepsTheDay(p.sub.nextBillingDate.value, p.loc);
    NormalizingKeepsTheDay(Time(at.today, p.loc), p.loc);
    assert RequestReminder(req)
        == Reminder(p.sub.userId, p.sub.id, p.channelType, trigger, BillingDay(p),
                    if UsesDedupeDate(trigger) then Some(BillingDay(p) - day) else None);
    var n := DaysBeforeFor(p.sub, p.policy) + 1;
    if Straight(p, at) {
      assert RequestReminder(req) == ReminderOn(p, day);
      DayBelow(p, n, day);
    } else if RequestReminder(req) in DayReminders(p) {
      var d := WhichDay(p, n, RequestReminder(req));
    }
  }

  /**
   * The one scan that is not straight: it dates itself on the first day of the countdown and
   * counts the days after midnight. (Clocks do not run backwards and a scan takes less than a day.)
   */
  lemma StrayScan(p: Plan, at: Readings)
    requires CountsDown(p)
    requires DaysLeft(p, at.counted) <= DaysLeft(p, at.today) <= DaysLeft(p, at.counted) + 1
    ensures !Straight(p, at) <==>
              DaysLeft(p, at.today) == DaysBeforeFor(p.sub, p.policy)
              && DaysLeft(p, at.counted) == DaysLeft(p, at.today) - 1
              && TriggerOn(p, DaysLeft(p, at.counted)) == ManualDaily
  {
    hide DaysUntilFrom;
  }

  /** Any scan: where it comes across the plan's subscription it is the plan's, with its policy. */
  ghost predicate ScanSees(p: Plan, scan: S.Scan)
    requires p.sub.nextBillingDate.Some?
  {
    && (forall i | 0 <= i < |scan.subs| && scan.subs[i].id == p.sub.id ::
          scan.subs[i] == p.sub && scan.policy == p.policy)
    && (forall i | 0 <= i < |scan.ended| && scan.ended[i].id == p.sub.id :: scan.ended[i].userId == p.sub.userId)
  }

  /** The scan sees the plan's subscription and an enabled channel of its type on that day of the countdown. */
  ghost predicate ScansOn(p: Plan, scan: S.Scan, day: int)
    requires p.sub.nextBillingDate.Some?
  {
    exists i, j :: 0 <= i < |scan.subs| && 0 <= j < |scan.channels| && ScansOnAt(p, scan, day, i, j)
  }

  ghost predicate ScansOnAt(p: Plan, scan: S.Scan, day: int, i: nat, j: nat)
    requires p.sub.nextBillingDate.Some? && i < |scan.subs| && j < |scan.channels|
  {
    && scan.subs[i].id == p.sub.id && scan.channels[j].channelType == p.channelType
    && var at := Readings(scan.today, scan.counted(i));
       InCountdown(p, DaysLeft(p, at.counted)) && Straight(p, at) && ScanDay(p, at) == day
  }

  /** A request of a scan is for a billing reminder of the plan, or does not concern it. */
  ghost predicate Fitting(p: Plan, req: Request)
    requires p.sub.nextBillingDate.Some?
  {
    (Asks(p, req) || Foreign(p, req)) && (req.subscriptionId == p.sub.id ==> req.userId == p.sub.userId)
  }

  ghost predicate AllFitting(p: Plan, reqs: seq<Request>)
    requires p.sub.nextBillingDate.Some?
  {
    forall req | req in reqs :: Fitting(p, req)
  }

  lemma RequestsFit(p: Plan, pass: S.Pass, scan: S.Scan, i: nat, m: nat)
    requires CountsDown(p) && ScanSees(p, scan) && i < |S.Subs(pass, scan)| && m < |scan.channels|
    ensures var at := Readings(scan.today, scan.counted(i));
            AllFitting(p, S.RequestsFor(pass, S.Subs(pass, scan)[i], scan.channels[m], scan.policy, at, p.loc))
  {
    hide Asks, Straight, DaysLeft, ScanDay, TriggerOn;
    var sub, c, at := S.Subs(pass, scan)[i], scan.channels[m], Readings(scan.today, scan.counted(i));
    if sub.id != p.sub.id || pass == S.EndedPass {
      OtherRequestsFit(p, pass, sub, c, scan.policy, at);
    } else {
      OneRequestPerChannel(p, c, at);
      if InCountdown(p, DaysLeft(p, at.counted)) {
        var req := BillingRequest(p.sub, c, TriggerOn(p, DaysLeft(p, at.counted)), at.today, p.loc);
        if c.channelType == p.channelType {
          RequestIsForTheScanDay(p, c, at);
        } else {
          assert Foreign(p, req);
        }
      }
    }
  }

  lemma OtherRequestsFit(p: Plan, pass: S.Pass, sub: Subscription, c: Channel, policy: Policy, at: Readings)
    requires CountsDown(p) && (sub.id != p.sub.id || (pass == S.EndedPass && sub.userId == p.sub.userId))
    ensures AllFitting(p, S.RequestsFor(pass, sub, c, policy, at, p.loc))
  {
    hide Asks, EndingTriggers, BillingTriggers, NormalizeDateInTimezone, NormalizeDateUTC;
  }

  lemma {:induction false} OnChannelsFit(p: Plan, pass: S.Pass, scan: S.Scan, i: nat, m: nat)
    requires CountsDown(p) && ScanSees(p, scan) && i < |S.Subs(pass, scan)| && m <= |scan.channels|
    ensures AllFitting(p, S.OnChannels(pass, scan, i, m, p.loc))
  {
    hide Fitting, S.RequestsFor, ScanSees;
    if m > 0 {
      OnChannelsFit(p, pass, scan, i, m - 1);
      RequestsFit(p, pass, scan, i, m - 1);
    }
  }

  lemma {:induction false} UpToFits(p: Plan, pass: S.Pass, scan: S.Scan, n: nat)
    requires CountsDown(p) && ScanSees(p, scan) && n <= |S.Subs(pass, scan)|
    ensures AllFitting(p, S.UpTo(pass, scan, n, p.loc))
  {
    hide Fitting, S.OnChannels, ScanSees;
    if n > 0 {
      UpToFits(p, pass, scan, n - 1);
      OnChannelsFit(p, pass, scan, n - 1, |scan.channels|);
    }
  }

  /** Everything a scan asks for is for a billing reminder of the plan or does not concern it. */
  lemma ScanRequestsFit(p: Plan, scan: S.Scan)
    requires CountsDown(p) && ScanSees(p, scan)
    ensures AllFitting(p, S.ScanRequests(scan, p.loc))
  {
    hide Fitting, S.UpTo, ScanSees;
    UpToFits(p, S.EndedPass, scan, |scan.ended|);
    UpToFits(p, S.EndingPass, scan, |scan.subs|);
    UpToFits(p, S.BillingPass, scan, |scan.subs|);
  }

  /** A scan on a day of the countdown asks for that day. */
  lemma ScanAsksForItsDay(p: Plan, scan: S.Scan, day: int)
    requires CountsDown(p) && ScanSees(p, scan) && ScansOn(p, scan, day)
    ensures exists req ::
              req in S.ScanRequests(scan, p.loc) && Asks(p, req) && RequestReminder(req) == ReminderOn(p, day)
  {
    hide Asks, DaysLeft, TriggerOn, Straight, ScanDay, RequestReminder, ReminderOn, DaysBelow, S.OnChannels, S.UpTo;
    var i, j :| 0 <= i < |scan.subs| && 0 <= j < |scan.channels| && ScansOnAt(p, scan, day, i, j);
    var c, at := scan.channels[j], Readings(scan.today, scan.counted(i));
    OneRequestPerChannel(p, c, at);
    RequestIsForTheScanDay(p, c, at);
    var req := BillingRequest(p.sub, c, TriggerOn(p, DaysLeft(p, at.counted)), at.today, p.loc);
    assert req in S.RequestsFor(S.BillingPass, p.sub, c, p.policy, at, p.loc);
    S.AskedSomewhere(scan, S.BillingPass, i, j, p.loc, req);
  }

  // ---- runs of scans among everything else ----

  /** All enqueue steps come from these scans, at any time and in any order. */
  ghost predicate EnqueuedBy(scans: seq<S.Scan>, loc: int, steps: seq<Step>) {
    forall k | 0 <= k < |steps| && steps[k].EnqueueStep? :: steps[k].loc == loc && AskedBySome(scans, loc, steps[k].req)
  }

  ghost predicate AskedBySome(scans: seq<S.Scan>, loc: int, req: Request) {
    exists i :: 0 <= i < |scans| && req in S.ScanRequests(scans[i], loc)
  }

  /** The scan was carried through: all it asks for was enqueued, from one channel of each type at least. */
  ghost predicate CarriedThrough(scan: S.Scan, loc: int, steps: seq<Step>) {
    forall req | req in S.ScanRequests(scan, loc) :: Enqueued(steps, req)
  }

  ghost predicate Enqueued(steps: seq<Step>, req: Request) {
    exists k :: 0 <= k < |steps| && steps[k].EnqueueStep? && S.ScheduleKey(steps[k].req) == S.ScheduleKey(req)
  }

  /** Every day of the countdown has a scan that is carried through. */
  ghost predicate ScannedDaily(p: Plan, scans: seq<S.Scan>, steps: seq<Step>)
    requires p.sub.nextBillingDate.Some?
  {
    forall day | InCountdown(p, day) ::
      exists i :: 0 <= i < |scans| && ScansOn(p, scans[i], day) && CarriedThrough(scans[i], p.loc, steps)
  }

  lemma ScansMakeACountdown(p: Plan, scans: seq<S.Scan>, steps: seq<Step>)
    requires CountsDown(p) && (forall i | 0 <= i < |scans| :: ScanSees(p, scans[i]))
    requires EnqueuedBy(scans, p.loc, steps)
    ensures CountdownSteps(p, steps) && forall k | 0 <= k < |steps| :: ProperStep(p, steps[k])
  {
    hide Asks, Foreign, ScanSees, S.ScanRequests;
    forall k | 0 <= k < |steps| && steps[k].EnqueueStep? ensures Fitting(p, steps[k].req) {
      var i :| 0 <= i < |scans| && steps[k].req in S.ScanRequests(scans[i], p.loc);
      ScanRequestsFit(p, scans[i]);
    }
  }

  lemma DailyScansAskForEachDay(p: Plan, scans: seq<S.Scan>, steps: seq<Step>, day: int)
    requires CountsDown(p) && (forall i | 0 <= i < |scans| :: ScanSees(p, scans[i]))
    requires ScannedDaily(p, scans, steps) && InCountdown(p, day)
    ensures DayIsAsked(p, steps, day)
  {
    hide ScanSees, S.ScanRequests, ScansOn, Asks, RequestReminder, ReminderOn;
    var i :| 0 <= i < |scans| && ScansOn(p, scans[i], day) && CarriedThrough(scans[i], p.loc, steps);
    ScanAsksForItsDay(p, scans[i], day);
    var req :| req in S.ScanRequests(scans[i], p.loc) && Asks(p, req) && RequestReminder(req) == ReminderOn(p, day);
    assert Enqueued(steps, req);
    var k :| 0 <= k < |steps| && steps[k].EnqueueStep? && S.ScheduleKey(steps[k].req) == S.ScheduleKey(req);
    OtherChannelRow(p, req, steps[k].req);
  }

  lemma OtherChannelRow(p: Plan, a: Request, b: Request)
    requires p.sub.nextBillingDate.Some? && Asks(p, a) && S.ScheduleKey(a) == S.ScheduleKey(b)
    ensures Asks(p, b) && RequestReminder(b) == RequestReminder(a)
  {
    assert b == a.(channelId := b.channelId);
  }

  /**
   * A countdown scanned on each of its days, by any scans of any subscriptions and channels, with
   * their requests interleaved in any way with each other, with claims, deliveries and expiry:
   * each day has its row on the channel type exactly when no request for a day without a row met
   * a sent log that covers it, and these are all rows exactly when, in addition, no stray scan's
   * request went through.
   */
  lemma ScannedCountdown(p: Plan, s: System, steps: seq<Step>, scans: seq<S.Scan>)
    requires CountsDown(p) && (forall i | 0 <= i < |scans| :: ScanSees(p, scans[i]))
    requires EnqueuedBy(scans, p.loc, steps) && ScannedDaily(p, scans, steps)
    requires L.WellKeyed(s.db.rows) && OwnCount(p, s.db.rows) == 0
    ensures var db, rows := Run(s, steps).db, DaysBeforeFor(p.sub, p.policy) + 1;
            && (EachDayHasARow(p, db) <==> forall k | 0 <= k < |steps| :: !Blocked(p, s, steps, k))
            && (EachDayHasARow(p, db) && OwnCount(p, db.rows) == rows
                <==> forall k | 0 <= k < |steps| :: !Blocked(p, s, steps, k) && !Stray(p, s, steps, k))
            && ((forall k | 0 <= k < |steps| :: !Stray(p, s, steps, k)) ==>
                  (OwnCount(p, db.rows) == rows <==> forall k | 0 <= k < |steps| :: !Blocked(p, s, steps, k)))
  {
    hide ScanSees, EnqueuedBy, ScannedDaily, CountdownSteps, L.WellKeyed, OwnCount, EachDayHasARow, Blocked, Stray,
      DayIsAsked;
    ScansMakeACountdown(p, scans, steps);
    forall day | InCountdown(p, day) ensures DayIsAsked(p, steps, day) {
      DailyScansAskForEachDay(p, scans, steps, day);
    }
    FullCountdown(p, s, steps);
  }

  /** And each day always has its row, if each daily reminder that is delivered is sent on its own local day. */
  lemma TimelyScannedCountdown(p: Plan, s: System, steps: seq<Step>, scans: seq<S.Scan>)
    requires CountsDown(p) && -DAY < p.loc < DAY && (forall i | 0 <= i < |scans| :: ScanSees(p, scans[i]))
    requires EnqueuedBy(scans, p.loc, steps) && ScannedDaily(p, scans, steps)
    requires L.Kept(s) && L.WellKeyed(s.db.rows) && ProperRows(p, s.db) && OwnCount(p, s.db.rows) == 0
    requires Covered(p, s.db) && AllSentOnTheirDay(p, s, steps)
    ensures EachDayHasARow(p, Run(s, steps).db)
    ensures (forall k | 0 <= k < |steps| :: !Stray(p, s, steps, k))
            <==> OwnCount(p, Run(s, steps).db.rows) == DaysBeforeFor(p.sub, p.policy) + 1
  {
    hide ScanSees, EnqueuedBy, ScannedDaily, CountdownSteps, L.Kept, L.WellKeyed, OwnCount, EachDayHasARow, Stray,
      DayIsAsked, ProperRows, ProperStep, Covered, AllSentOnTheirDay;
    ScansMakeACountdown(p, scans, steps);
    forall day | InCountdown(p, day) ensures DayIsAsked(p, steps, day) {
      DailyScansAskForEachDay(p, scans, steps, day);
    }
    TimelyCountdownIsFull(p, s, steps);
  }

  /** Whole days without a midnight inside a scan ask for nothing stray. */
  lemma OneDayScansAreNotStray(p: Plan, s: System, steps: seq<Step>, scans: seq<S.Scan>)
    requires CountsDown(p) && (forall i | 0 <= i < |scans| :: ScanSees(p, scans[i]))
    requires EnqueuedBy(scans, p.loc, steps)
    requires forall i, j | 0 <= i < |scans| && 0 <= j < |scans[i].subs| ::
               LocalDay(Time(scans[i].counted(j), p.loc)) == LocalDay(Time(scans[i].today, p.loc))
    ensures forall k | 0 <= k < |steps| :: !Stray(p, s, steps, k)
  {
    hide ScanSees, S.ScanRequests, Asks, RequestReminder, DaysBelow, AlreadySent;
    forall k | 0 <= k < |steps| && steps[k].EnqueueStep? && Asks(p, steps[k].req)
      ensures RequestReminder(steps[k].req) in DayReminders(p)
    {
      assert AskedBySome(scans, p.loc, steps[k].req);
      var i :| 0 <= i < |scans| && steps[k].req in S.ScanRequests(scans[i], p.loc);
      OneDayScanAsksForDays(p, scans[i], steps[k].req);
    }
  }

  lemma OneDayScanAsksForDays(p: Plan, scan: S.Scan, req: Request)
    requires CountsDown(p) && ScanSees(p, scan) && req in S.ScanRequests(scan, p.loc) && Asks(p, req)
    requires forall j | 0 <= j < |scan.subs| ::
               LocalDay(Time(scan.counted(j), p.loc)) == LocalDay(Time(scan.today, p.loc))
    ensures RequestReminder(req) in DayReminders(p)
  {
    hide S.RequestsFor, S.OnChannels, S.UpTo, Asks, DaysLeft, Straight, ScanDay, RequestReminder, DaysBelow;
    var pass, i, m := S.WhereAsked(scan, p.loc, req);
    var sub, c, at := S.Subs(pass, scan)[i], scan.channels[m], Readings(scan.today, scan.counted(i));
    AskedByItsOwnScan(p, pass, sub, c, scan.policy, at, req);
    OneRequestPerChannel(p, c, at);
    RequestIsForTheScanDay(p, c, at);
    OneDayIsStraight(p, at);
  }

  lemma AskedByItsOwnScan(p: Plan, pass: S.Pass, sub: Subscription, c: Channel, policy: Policy, at: Readings,
                          req: Request)
    requires CountsDown(p) && Asks(p, req) && req in S.RequestsFor(pass, sub, c, policy, at, p.loc)
    ensures pass == S.BillingPass && sub.id == p.sub.id && c.channelType == p.channelType
    ensures sub == p.sub && policy == p.policy ==>
              InCountdown(p, DaysLeft(p, at.counted))
              && req == BillingRequest(p.sub, c, TriggerOn(p, DaysLeft(p, at.counted)), at.today, p.loc)
  {
    OneRequestPerChannel(p, c, at);
    hide DaysLeft, TriggerOn, BillingTriggers, EndingTriggers;
  }

  /** A scan that runs to its end is carried through by its own steps, if all its messages can be rendered. */
  lemma {:induction false} WholeScanIsCarriedThrough(reqs: seq<Request>, loc: int, env: S.Surroundings, req: Request)
    requires req in reqs && env.renders(S.ScheduleKey(req))
    ensures Enqueued(S.EnqueueSteps(reqs, loc, env), req)
  {
    var n, steps := |reqs| - 1, S.EnqueueSteps(reqs, loc, env);
    var before := S.EnqueueSteps(reqs[..n], loc, env);
    if req in reqs[..n] {
      WholeScanIsCarriedThrough(reqs[..n], loc, env, req);
      var k :| 0 <= k < |before| && before[k].EnqueueStep? && S.ScheduleKey(before[k].req) == S.ScheduleKey(req);
      assert steps[k] == before[k];
    } else {
      assert reqs == reqs[..n] + [reqs[n]] && req == reqs[n];
      assert steps[|before|] == EnqueueStep(req, loc, env.inserted(n));
    }
  }
}
