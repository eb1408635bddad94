/**
 * The reminder rules in plain days, for every kind of subscription: which reminders a scan asks
 * for, which rows a check lets through, and what a whole scan leaves in the tables.
 */
module ReminderRules {
  import opened Basics
  import opened Calendar
  import opened DedupeKeys
  import opened Outbox
  import opened OutboxEffects
  import opened Reminders
  import S = OutboxService

  // ---- the rules ----

  /** The local day a date shows in the server's zone. */
  function DayIn(t: Time, loc: int): int {
    (t.instant + loc) / 86400
  }

  function DateOf(day: int, loc: int): Time {
    Time(day * 86400 - loc, loc)
  }

  /** Days of warning: the subscription's own, else the policy's. */
  function Warning(sub: Subscription, policy: Policy): int {
    if sub.notifyDaysBefore.Some? then sub.notifyDaysBefore.value else policy.daysBefore
  }

  predicate Reminded(sub: Subscription) {
    sub.status == Active && sub.recurring && (sub.notifyEnabled.None? || sub.notifyEnabled.value)
  }

  /** days_before, due_day and manual_renew_daily, with left days to the billing day. */
  predicate BillingRule(trigger: Trigger, sub: Subscription, policy: Policy, left: int) {
    match trigger
    case DaysBefore => left == Warning(sub, policy) && left > 0
    case DueDay => left == 0 && policy.notifyOnDueDay
    case ManualDaily =>
      && sub.renewalMode == ManualRenew && policy.notifyManualRenewDaily
      && 0 <= left < Warning(sub, policy) && !(left == 0 && policy.notifyOnDueDay)
    case _ => false
  }

  /** ending_soon, with left days to the end of the period. */
  predicate EndingRule(sub: Subscription, policy: Policy, left: int) {
    (left > 0 && left == Warning(sub, policy)) || (left == 0 && policy.notifyOnDueDay)
  }

  /** The billing reminders a subscription wants from a scan with these readings, on one channel. */
  predicate WantsBilling(sub: Subscription, c: Channel, policy: Policy, at: Readings, loc: int, req: Request) {
    && Reminded(sub) && sub.renewalMode in {AutoRenew, ManualRenew} && sub.nextBillingDate.Some?
    && var due := DayIn(sub.nextBillingDate.value, loc);
       && BillingRule(req.trigger, sub, policy, due - DayIn(Time(at.counted, 0), loc))
       && req == Request(sub.userId, sub.id, c.id, c.channelType, req.trigger, DateOf(due, loc),
                         Some(DateOf(if req.trigger == ManualDaily then DayIn(Time(at.today, 0), loc) else due, loc)))
  }

  /** The same for the end of a period after which a subscription will not renew. */
  predicate WantsEnding(sub: Subscription, c: Channel, policy: Policy, at: Readings, loc: int, req: Request) {
    && Reminded(sub) && sub.renewalMode == CancelAtPeriodEnd && (sub.endsAt.Some? || sub.nextBillingDate.Some?)
    && var end := DayIn(if sub.endsAt.Some? then sub.endsAt.value else sub.nextBillingDate.value, loc);
       && EndingRule(sub, policy, end - DayIn(Time(at.counted, 0), loc))
       && req == Request(sub.userId, sub.id, c.id, c.channelType, EndingSoon, DateOf(end, loc),
                         Some(DateOf(DayIn(Time(at.today, 0), loc), loc)))
  }

  /** The same for one that has ended. */
  predicate WantsEnded(sub: Subscription, c: Channel, loc: int, req: Request) {
    && sub.endsAt.Some? && (sub.notifyEnabled.None? || sub.notifyEnabled.value)
    && var day := DateOf(DayIn(sub.endsAt.value, loc), loc);
       req == Request(sub.userId, sub.id, c.id, c.channelType, ManualEnded, day, Some(day))
  }

  // ---- the scan follows the rules ----

  lemma BillingExactly(sub: Subscription, c: Channel, policy: Policy, at: Readings, loc: int, req: Request)
    ensures req in BillingRequests(sub, c, policy, at, loc) <==> WantsBilling(sub, c, policy, at, loc, req)
  {
    if sub.nextBillingDate.Some? {
      TriggersExactly(sub, policy, at.counted, loc, req.trigger);
      BillingRequestDates(sub, c, req.trigger, at.today, loc);
      hide BillingTriggers, BillingRequest;
      var triggers := BillingTriggers(sub, policy, at.counted, loc);
      if req in BillingRequests(sub, c, policy, at, loc) {
        var i :| 0 <= i < |triggers| && req == BillingRequest(sub, c, triggers[i], at.today, loc);
        BillingRequestDates(sub, c, triggers[i], at.today, loc);
        assert triggers[i] in triggers;
      }
      if req.trigger in triggers {
        var i :| 0 <= i < |triggers| && triggers[i] == req.trigger;
        assert BillingRequests(sub, c, policy, at, loc)[i] == BillingRequest(sub, c, req.trigger, at.today, loc);
      }
    }
  }

  lemma TriggersExactly(sub: Subscription, policy: Policy, counted: int, loc: int, trigger: Trigger)
    requires sub.nextBillingDate.Some?
    ensures trigger in BillingTriggers(sub, policy, counted, loc)
            <==> Reminded(sub) && sub.renewalMode in {AutoRenew, ManualRenew}
                 && BillingRule(trigger, sub, policy,
                                DayIn(sub.nextBillingDate.value, loc) - DayIn(Time(counted, 0), loc))
  {
    DaysUntilIsDayDifference(Time(counted, loc), sub.nextBillingDate.value, loc);
    hide DaysUntilFrom, TriggersFor;
    TriggersForExactly(sub, policy, DayIn(sub.nextBillingDate.value, loc) - DayIn(Time(counted, 0), loc), trigger);
  }

  lemma TriggersForExactly(sub: Subscription, policy: Policy, left: int, trigger: Trigger)
    ensures trigger in TriggersFor(sub.renewalMode, left, DaysBeforeFor(sub, policy), policy.notifyOnDueDay,
                                   policy.notifyManualRenewDaily)
            <==> BillingRule(trigger, sub, policy, left)
  {
    var before := DaysBeforeFor(sub, policy);
    BaseExactly(left, before, policy.notifyOnDueDay, trigger);
    hide BaseTriggers;
  }

  lemma BaseExactly(left: int, before: int, onDueDay: bool, trigger: Trigger)
    ensures trigger in BaseTriggers(left, before, onDueDay)
            <==> (trigger == DaysBefore && left == before && left > 0) || (trigger == DueDay && left == 0 && onDueDay)
    ensures BaseTriggers(left, before, onDueDay) != [] <==> (left == before && left > 0) || (left == 0 && onDueDay)
  {
  }

  lemma BillingRequestDates(sub: Subscription, c: Channel, trigger: Trigger, today: int, loc: int)
    requires sub.nextBillingDate.Some?
    ensures var due := DayIn(sub.nextBillingDate.value, loc);
            BillingRequest(sub, c, trigger, today, loc)
            == Request(sub.userId, sub.id, c.id, c.channelType, trigger, DateOf(due, loc),
                       Some(DateOf(if trigger == ManualDaily then DayIn(Time(today, 0), loc) else due, loc)))
  {
  }

  lemma EndingExactly(sub: Subscription, c: Channel, policy: Policy, at: Readings, loc: int, req: Request)
    ensures req in EndingRequests(sub, c, policy, at, loc) <==> WantsEnding(sub, c, policy, at, loc, req)
  {
    if PeriodEnd(sub).Some? {
      var end := NormalizeDateInTimezone(PeriodEnd(sub).value, loc);
      DaysUntilIsDayDifference(Time(at.counted, loc), end, loc);
      NormalizingKeepsTheDay(PeriodEnd(sub).value, loc);
      assert LocalDay(In(end, loc)) == LocalDay(end) == DayIn(PeriodEnd(sub).value, loc);
      assert end == DateOf(DayIn(PeriodEnd(sub).value, loc), loc);
      BaseExactly(DayIn(PeriodEnd(sub).value, loc) - DayIn(Time(at.counted, 0), loc), DaysBeforeFor(sub, policy),
                  policy.notifyOnDueDay, DueDay);
      assert NormalizeDateInTimezone(Time(at.today, loc), loc) == DateOf(DayIn(Time(at.today, 0), loc), loc);
      hide DaysUntilFrom, BaseTriggers, NormalizeDateInTimezone;
    }
  }

  lemma EndedExactly(sub: Subscription, c: Channel, loc: int, req: Request)
    ensures req in EndedRequests(sub, c, loc) <==> WantsEnded(sub, c, loc, req)
  {
  }

  /** What one pass wants of one subscription on one channel. */
  predicate Wants(pass: S.Pass, sub: Subscription, c: Channel, policy: Policy, at: Readings, loc: int, req: Request) {
    match pass
    case EndedPass => WantsEnded(sub, c, loc, req)
    case EndingPass => WantsEnding(sub, c, policy, at, loc, req)
    case BillingPass => WantsBilling(sub, c, policy, at, loc, req)
  }

  ghost predicate ScanWants(scan: S.Scan, loc: int, req: Request) {
    exists pass: S.Pass, i: nat, m: nat :: WantedAt(scan, pass, i, m, loc, req)
  }

  ghost predicate WantedAt(scan: S.Scan, pass: S.Pass, i: nat, m: nat, loc: int, req: Request) {
    && i < |S.Subs(pass, scan)| && m < |scan.channels|
    && Wants(pass, S.Subs(pass, scan)[i], scan.channels[m], scan.policy, Readings(scan.today, scan.counted(i)), loc,
             req)
  }

  lemma PassExactly(pass: S.Pass, sub: Subscription, c: Channel, policy: Policy, at: Readings, loc: int, req: Request)
    ensures req in S.RequestsFor(pass, sub, c, policy, at, loc) <==> Wants(pass, sub, c, policy, at, loc, req)
  {
    hide BillingRequests, EndingRequests, EndedRequests, WantsBilling, WantsEnding, WantsEnded;
    BillingExactly(sub, c, policy, at, loc, req);
    EndingExactly(sub, c, policy, at, loc, req);
    EndedExactly(sub, c, loc, req);
  }

  /** A scan asks for exactly what the rules want, for every subscription on every channel. */
  lemma ScanAsksExactly(scan: S.Scan, loc: int, req: Request)
    ensures req in S.ScanRequests(scan, loc) <==> ScanWants(scan, loc, req)
  {
    hide S.RequestsFor, S.OnChannels, S.UpTo, Wants;
    if req in S.ScanRequests(scan, loc) {
      var pass, i, m := S.WhereAsked(scan, loc, req);
      PassExactly(pass, S.Subs(pass, scan)[i], scan.channels[m], scan.policy, Readings(scan.today, scan.counted(i)),
                  loc,
                  req);
      assert WantedAt(scan, pass, i, m, loc, req);
    }
    if ScanWants(scan, loc, req) {
      var pass: S.Pass, i: nat, m: nat :| WantedAt(scan, pass, i, m, loc, req);
      PassExactly(pass, S.Subs(pass, scan)[i], scan.channels[m], scan.policy, Readings(scan.today, scan.counted(i)),
                  loc,
                  req);
      S.AskedSomewhere(scan, pass, i, m, loc, req);
    }
  }

  // ---- what a scan leaves ----

  /** Some request of the list is rendered, has the key, and no log covers it. */
  ghost predicate Brings(logs: seq<Log>, reqs: seq<Request>, loc: int, env: S.Surroundings, key: string) {
    exists k :: 0 <= k < |reqs| && BringsAt(logs, reqs[k], loc, env, key)
  }

  ghost predicate BringsAt(logs: seq<Log>, req: Request, loc: int, env: S.Surroundings, key: string) {
    env.renders(S.ScheduleKey(req)) && RequestKey(req) == key && !AlreadySent(logs, req, loc)
  }

  /** The keys in the table after a scan: those that were there, and those of its uncovered, rendered requests. */
  lemma {:induction false} ScanLeavesExactly(db: Db, reqs: seq<Request>, loc: int, env: S.Surroundings)
    ensures var db' := S.EnqueueAll(db, reqs, loc, env);
            && db'.logs == db.logs && db.rows <= db'.rows
            && (forall key :: HasKey(db'.rows, key) <==> HasKey(db.rows, key) || Brings(db.logs, reqs, loc, env, key))
  {
    hide AlreadySent, RequestKey, NewRow, S.ScheduleKey;
    if reqs != [] {
      var n, req := |reqs| - 1, reqs[|reqs| - 1];
      ScanLeavesExactly(db, reqs[..n], loc, env);
      var before, db' := S.EnqueueAll(db, reqs[..n], loc, env), S.EnqueueAll(db, reqs, loc, env);
      EnqueueLeavesExactly(before, req, loc, env.inserted(n));
      forall key
        ensures Brings(db.logs, reqs, loc, env, key)
                <==> Brings(db.logs, reqs[..n], loc, env, key) || BringsAt(db.logs, req, loc, env, key)
      {
        if k :| 0 <= k < |reqs| && BringsAt(db.logs, reqs[k], loc, env, key) {
          assert k < n ==> reqs[..n][k] == reqs[k];
        }
        if k :| 0 <= k < n && BringsAt(db.logs, reqs[..n][k], loc, env, key) {
          assert reqs[k] == reqs[..n][k];
        }
      }
    }
  }

  lemma EnqueueLeavesExactly(db: Db, req: Request, loc: int, now: int)
    ensures var db' := Enqueue(db, req, loc, now);
            && db'.logs == db.logs && db.rows <= db'.rows
            && forall key :: HasKey(db'.rows, key)
                             <==> HasKey(db.rows, key) || (key == RequestKey(req) && !AlreadySent(db.logs, req, loc))
  {
    hide AlreadySent, RequestKey;
    var db' := Enqueue(db, req, loc, now);
    if db' != db {
      assert db'.rows == db.rows + [NewRow(req, now)];
      forall key ensures HasKey(db'.rows, key) <==> HasKey(db.rows, key) || key == RequestKey(req) {
        assert db'.rows[|db.rows|] in db'.rows && db'.rows[|db.rows|].dedupeKey == RequestKey(req);
        assert forall r | r in db.rows :: r in db'.rows;
      }
    }
  }

  // ---- the check follows the rules ----

  /**
   * The dispatcher's check lets a billing row through exactly by the rule of its trigger, on its
   * day of insertion if daily.
   */
  lemma BillingCheckExactly(row: Row, sub: Subscription, stored: Lookup<Policy>, now: int, at: Readings, loc: int)
    requires row.trigger in {DaysBefore, DueDay, ManualDaily}
    ensures Decide(row, Found(sub), stored, now, at, loc) == Deliver
            <==> !(exists t :: row.expiresAt == Some(t) && t <= now)
                 && Reminded(sub) && sub.renewalMode in {AutoRenew, ManualRenew} && sub.nextBillingDate.Some?
                 && !stored.LookupFailed?
                 && var policy := if stored.NotFound? then Policy(3, true, false) else stored.value;
                    var due := DayIn(sub.nextBillingDate.value, loc);
                    && LocalDay(row.notifyDate) == due
                    && (row.trigger == ManualDaily ==>
                        DayIn(Time(row.scheduledFor, 0), loc) == DayIn(Time(at.today, 0), loc))
                    && BillingRule(row.trigger, sub, policy, due - DayIn(Time(at.counted, 0), loc))
  {
    if row.expiresAt.Some? { assert row.expiresAt == Some(row.expiresAt.value); }
    if sub.nextBillingDate.Some? && !stored.LookupFailed? {
      TriggersExactly(sub, GetPolicy(stored).value, at.counted, loc, row.trigger);
      NotifyDaysAgree(row, sub.nextBillingDate.value, loc);
      OnScheduledDayExactly(row, at.today, loc);
      hide DaysUntilFrom, NormalizeDateUTC, NormalizeDateInTimezone, OnScheduledDay, BillingRule;
    }
  }

  lemma NotifyDaysAgree(row: Row, date: Time, loc: int)
    ensures NormalizeDateUTC(row.notifyDate) == NormalizeDateUTC(NormalizeDateInTimezone(date, loc))
            <==> LocalDay(row.notifyDate) == DayIn(date, loc)
  {
    NormalizingKeepsTheDay(date, loc);
    assert LocalDay(NormalizeDateInTimezone(date, loc)) == DayIn(date, loc);
  }

  lemma OnScheduledDayExactly(row: Row, today: int, loc: int)
    ensures OnScheduledDay(row, today, loc)
            <==> DayIn(Time(row.scheduledFor, 0), loc) == DayIn(Time(today, 0), loc)
  {
  }

  lemma EndingCheckExactly(row: Row, sub: Subscription, stored: Lookup<Policy>, now: int, at: Readings, loc: int)
    requires row.trigger == EndingSoon
    ensures Decide(row, Found(sub), stored, now, at, loc) == Deliver
            <==> !(exists t :: row.expiresAt == Some(t) && t <= now)
                 && Reminded(sub) && sub.renewalMode == CancelAtPeriodEnd
                 && (sub.endsAt.Some? || sub.nextBillingDate.Some?) && !stored.LookupFailed?
                 && var policy := if stored.NotFound? then Policy(3, true, false) else stored.value;
                    var end := DayIn(if sub.endsAt.Some? then sub.endsAt.value else sub.nextBillingDate.value, loc);
                    && LocalDay(row.notifyDate) == end
                    && DayIn(Time(row.scheduledFor, 0), loc) == DayIn(Time(at.today, 0), loc)
                    && EndingRule(sub, policy, end - DayIn(Time(at.counted, 0), loc))
  {
    if row.expiresAt.Some? { assert row.expiresAt == Some(row.expiresAt.value); }
    EndingDecides(row, sub, stored, now, at, loc);
    if PeriodEnd(sub).Some? && !stored.LookupFailed? {
      EndingMatchExactly(row, sub, GetPolicy(stored).value, at, loc);
    }
    hide Decide, DecideEndingSoon, EndingRule, DayIn, LocalDay, Reminded;
  }

  lemma EndingDecides(row: Row, sub: Subscription, stored: Lookup<Policy>, now: int, at: Readings, loc: int)
    requires row.trigger == EndingSoon
    ensures Decide(row, Found(sub), stored, now, at, loc) == Deliver
            <==> (row.expiresAt.Some? ==> now < row.expiresAt.value)
                 && Reminded(sub) && sub.renewalMode == CancelAtPeriodEnd && PeriodEnd(sub).Some?
                 && GetPolicy(stored).Found? && DecideEndingSoon(row, sub, GetPolicy(stored).value, at, loc) == Deliver
  {
    hide DecideEndingSoon, DecideBilling, NormalizeDateUTC;
  }

  lemma EndingMatchExactly(row: Row, sub: Subscription, policy: Policy, at: Readings, loc: int)
    requires PeriodEnd(sub).Some?
    ensures var end := DayIn(PeriodEnd(sub).value, loc);
            DecideEndingSoon(row, sub, policy, at, loc) == Deliver
            <==> LocalDay(row.notifyDate) == end
                 && DayIn(Time(row.scheduledFor, 0), loc) == DayIn(Time(at.today, 0), loc)
                 && EndingRule(sub, policy, end - DayIn(Time(at.counted, 0), loc))
  {
    var date := PeriodEnd(sub).value;
    var end := NormalizeDateInTimezone(date, loc);
    NotifyDaysAgree(row, date, loc);
    OnScheduledDayExactly(row, at.today, loc);
    DaysUntilIsDayDifference(Time(at.counted, loc), end, loc);
    assert LocalDay(In(end, loc)) == DayIn(date, loc);
    BaseExactly(DayIn(date, loc) - DayIn(Time(at.counted, 0), loc), DaysBeforeFor(sub, policy), policy.notifyOnDueDay,
                DueDay);
    hide BaseTriggers, DaysUntilFrom, NormalizeDateUTC, NormalizeDateInTimezone, OnScheduledDay;
  }

  lemma EndedCheckExactly(row: Row, sub: Subscription, stored: Lookup<Policy>, now: int, at: Readings, loc: int)
    requires row.trigger == ManualEnded
    ensures Decide(row, Found(sub), stored, now, at, loc) == Deliver
            <==> !(exists t :: row.expiresAt == Some(t) && t <= now)
                 && sub.status == Ended && sub.renewalMode == ManualRenew && sub.recurring
                 && sub.endsAt.Some? && (sub.notifyEnabled.None? || sub.notifyEnabled.value)
                 && LocalDay(row.notifyDate) == LocalDay(sub.endsAt.value)
  {
    if row.expiresAt.Some? { assert row.expiresAt == Some(row.expiresAt.value); }
  }

  /**
   * A check is put off exactly when a lookup it needs fails, cancelled for a missing subscription,
   * and expired by the clock.
   */
  lemma OtherChecksExactly(row: Row, subscription: Lookup<Subscription>, stored: Lookup<Policy>, now: int, at: Readings,
                           loc: int)
    ensures var d := Decide(row, subscription, stored, now, at, loc);
            var overdue := exists t :: row.expiresAt == Some(t) && t <= now;
            && (d == Expire <==> overdue)
            && (!overdue && subscription.LookupFailed? ==> d == Retry(subscription.error))
            && (!overdue && subscription.NotFound? ==> d.Cancel?)
            && (!overdue && subscription.Found? && stored.LookupFailed? && Deliverable(row, subscription.value) ==>
                  d == Retry(stored.error))
            && (d.Retry? ==> subscription.LookupFailed? || (subscription.Found? && stored.LookupFailed?
                                                            && Deliverable(row, subscription.value)))
  {
    if row.expiresAt.Some? { assert row.expiresAt == Some(row.expiresAt.value); }
    ExpiryComesFirst(row, subscription, stored, now, at, loc);
    if subscription.Found? && GetPolicy(stored).Found? {
      MatchingNeverRetries(row, subscription.value, GetPolicy(stored).value, at, loc);
    }
    hide DecideBilling, DecideEndingSoon;
  }

  /** The subscription still wants reminders of this kind, so that the policy has to be asked. */
  predicate Deliverable(row: Row, sub: Subscription) {
    && row.trigger != ManualEnded && Reminded(sub)
    && if row.trigger == EndingSoon then
         sub.renewalMode == CancelAtPeriodEnd && (sub.endsAt.Some? || sub.nextBillingDate.Some?)
       else
         sub.renewalMode in {AutoRenew, ManualRenew} && sub.nextBillingDate.Some?
  }

  lemma MatchingNeverRetries(row: Row, sub: Subscription, policy: Policy, at: Readings, loc: int)
    ensures PeriodEnd(sub).Some? ==> !DecideEndingSoon(row, sub, policy, at, loc).Retry?
    ensures sub.nextBillingDate.Some? ==> !DecideBilling(row, sub, policy, at, loc).Retry?
  {
  }

  /** The sweep and the check agree on when a row has expired. */
  lemma SweepAgreesWithCheck(row: Row, subscription: Lookup<Subscription>, stored: Lookup<Policy>, now: int,
                             at: Readings, loc: int)
    requires row.status in {Pending, Processing}
    ensures ExpireRow(row, now).status == Expired <==> Decide(row, subscription, stored, now, at, loc) == Expire
  {
    hide Decide;
    ExpiryComesFirst(row, subscription, stored, now, at, loc);
    SweepExactly([row], now);
    assert ExpireRows([row], now)[0] == ExpireRow(row, now);
    DueExactly(row, now);
  }
}
