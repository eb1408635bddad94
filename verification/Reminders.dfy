/** When a reminder is due: the scheduler's view, the dispatcher's view, and that they agree. */
module Reminders {
  import opened Basics
  import opened Calendar
  import opened DedupeKeys
  import opened Outbox

  datatype SubscriptionStatus = Active | Ended

  datatype RenewalMode = AutoRenew | ManualRenew | CancelAtPeriodEnd

  datatype Subscription = Subscription(
    id: nat,
    userId: nat,
    status: SubscriptionStatus,
    recurring: bool,
    renewalMode: RenewalMode,
    endsAt: Option<Time>,
    nextBillingDate: Option<Time>,
    notifyEnabled: Option<bool>,
    notifyDaysBefore: Option<int>)

  datatype Policy = Policy(daysBefore: int, notifyOnDueDay: bool, notifyManualRenewDaily: bool)

  /** The policy of a user who has stored none. */
  const DEFAULT_POLICY := Policy(3, true, false)

  datatype Channel = Channel(id: nat, channelType: string)

  // ---- triggers ----

  function BaseTriggers(daysUntil: int, daysBefore: int, notifyOnDueDay: bool): seq<Trigger> {
    (if daysUntil == daysBefore && daysBefore > 0 then [DaysBefore] else [])
    + (if daysUntil == 0 && notifyOnDueDay then [DueDay] else [])
  }

  function TriggersFor(mode: RenewalMode, daysUntil: int, daysBefore: int, notifyOnDueDay: bool,
                       notifyManualRenewDaily: bool): seq<Trigger>
  {
    var base := BaseTriggers(daysUntil, daysBefore, notifyOnDueDay);
    if mode == ManualRenew && notifyManualRenewDaily && daysBefore > 0 && 0 <= daysUntil < daysBefore
       && (daysUntil != 0 || !notifyOnDueDay)
    then base + [ManualDaily]
    else base
  }

  /** A manual-renew countdown has exactly one trigger on each of its days, and none outside it. */
  lemma OneTriggerPerCountdownDay(daysUntil: int, daysBefore: int, notifyOnDueDay: bool)
    requires daysBefore > 0
    ensures |TriggersFor(ManualRenew, daysUntil, daysBefore, notifyOnDueDay, true)|
            == if 0 <= daysUntil <= daysBefore then 1 else 0
  {
  }

  // ---- the scheduler ----

  /**
   * The clock readings behind one decision: the one that dates it (the scan's date, or the
   * dispatcher's today) and the one from which the days left are counted.
   */
  datatype Readings = Readings(today: int, counted: int)

  function NotifyEnabled(sub: Subscription): bool {
    sub.notifyEnabled != Some(false)
  }

  function DaysBeforeFor(sub: Subscription, policy: Policy): int {
    match sub.notifyDaysBefore
    case Some(n) => n
    case None => policy.daysBefore
  }

  function PeriodEnd(sub: Subscription): Option<Time> {
    if sub.endsAt.Some? then sub.endsAt else sub.nextBillingDate
  }

  predicate HasFutureCharge(sub: Subscription) {
    sub.status == Active && sub.recurring && sub.renewalMode != CancelAtPeriodEnd
  }

  /** For a subscription among the manual-renew ones that have ended unannounced. */
  function EndedRequests(sub: Subscription, channel: Channel, loc: int): seq<Request> {
    if sub.endsAt.None? || !NotifyEnabled(sub) then []
    else
      var endedAt := NormalizeDateInTimezone(sub.endsAt.value, loc);
      [Request(sub.userId, sub.id, channel.id, channel.channelType, ManualEnded, endedAt, Some(endedAt))]
  }

  /** The triggers an ending subscription has when its days are counted at now. */
  function EndingTriggers(sub: Subscription, policy: Policy, now: int, loc: int): seq<Trigger> {
    var boundary := PeriodEnd(sub);
    if !(sub.status == Active && sub.recurring && sub.renewalMode == CancelAtPeriodEnd && boundary.Some?
         && NotifyEnabled(sub))
    then []
    else
      var endDate := NormalizeDateInTimezone(boundary.value, loc);
      BaseTriggers(DaysUntilFrom(Time(now, loc), endDate, loc), DaysBeforeFor(sub, policy), policy.notifyOnDueDay)
  }

  function EndingRequests(sub: Subscription, channel: Channel, policy: Policy, at: Readings, loc: int): seq<Request> {
    if EndingTriggers(sub, policy, at.counted, loc) == [] then []
    else
      var endDate := NormalizeDateInTimezone(PeriodEnd(sub).value, loc);
      var scanDate := NormalizeDateInTimezone(Time(at.today, loc), loc);
      [Request(sub.userId, sub.id, channel.id, channel.channelType, EndingSoon, endDate, Some(scanDate))]
  }

  function BillingRequest(sub: Subscription, channel: Channel, trigger: Trigger, today: int, loc: int): Request
    requires sub.nextBillingDate.Some?
  {
    var billingDate := NormalizeDateInTimezone(sub.nextBillingDate.value, loc);
    var scanDate := NormalizeDateInTimezone(Time(today, loc), loc);
    Request(sub.userId, sub.id, channel.id, channel.channelType, trigger, billingDate,
            Some(if trigger == ManualDaily then scanDate else billingDate))
  }

  function BillingTriggers(sub: Subscription, policy: Policy, now: int, loc: int): seq<Trigger> {
    if !(sub.nextBillingDate.Some? && HasFutureCharge(sub) && NotifyEnabled(sub)) then []
    else TriggersFor(sub.renewalMode, DaysUntilFrom(Time(now, loc), sub.nextBillingDate.value, loc),
                     DaysBeforeFor(sub, policy), policy.notifyOnDueDay, policy.notifyManualRenewDaily)
  }

  function BillingRequests(sub: Subscription, channel: Channel, policy: Policy, at: Readings, loc: int): seq<Request> {
    var triggers := BillingTriggers(sub, policy, at.counted, loc);
    seq(|triggers|, i requires 0 <= i < |triggers| => BillingRequest(sub, channel, triggers[i], at.today, loc))
  }

  /** Everything a scan queues for one active subscription on one channel. */
  predicate Schedules(sub: Subscription, channel: Channel, policy: Policy, at: Readings, loc: int, req: Request) {
    req in EndingRequests(sub, channel, policy, at, loc) || req in BillingRequests(sub, channel, policy, at, loc)
  }

  // ---- the dispatcher ----

  datatype Lookup<T> = Found(value: T) | NotFound | LookupFailed(error: string)

  datatype Decision = Deliver | Cancel(reason: string) | Expire | Retry(error: string)

  predicate OnScheduledDay(row: Row, today: int, loc: int) {
    NormalizeDateInTimezone(Time(row.scheduledFor, 0), loc) == NormalizeDateInTimezone(Time(today, loc), loc)
  }

  function DecideEndingSoon(row: Row, sub: Subscription, policy: Policy, at: Readings, loc: int): Decision
    requires PeriodEnd(sub).Some?
  {
    var endDate := NormalizeDateInTimezone(PeriodEnd(sub).value, loc);
    if NormalizeDateUTC(row.notifyDate) != NormalizeDateUTC(endDate) then
      Cancel("queued ending reminder no longer matches ending date")
    else if BaseTriggers(DaysUntilFrom(Time(at.counted, loc), endDate, loc), DaysBeforeFor(sub, policy),
                         policy.notifyOnDueDay) == [] then
      Cancel("queued ending reminder no longer matches reminder timing")
    else if !OnScheduledDay(row, at.today, loc) then Cancel("queued ending reminder is stale")
    else Deliver
  }

  function DecideBilling(row: Row, sub: Subscription, policy: Policy, at: Readings, loc: int): Decision
    requires sub.nextBillingDate.Some?
  {
    var billingDate := NormalizeDateInTimezone(sub.nextBillingDate.value, loc);
    if NormalizeDateUTC(row.notifyDate) != NormalizeDateUTC(billingDate) then
      Cancel("queued reminder no longer matches billing date")
    else if row.trigger == ManualDaily && !OnScheduledDay(row, at.today, loc) then
      Cancel("queued daily manual-renew reminder is stale")
    else if row.trigger in TriggersFor(sub.renewalMode,
                                       DaysUntilFrom(Time(at.counted, loc), sub.nextBillingDate.value, loc),
                                       DaysBeforeFor(sub, policy), policy.notifyOnDueDay,
                                       policy.notifyManualRenewDaily) then
      Deliver
    else Cancel("queued reminder no longer matches reminder timing")
  }

  /** A user without a stored policy has the default one. */
  function GetPolicy(stored: Lookup<Policy>): Lookup<Policy> {
    if stored.NotFound? then Found(DEFAULT_POLICY) else stored
  }

  /** now is the reading for expiry; at holds the later ones. */
  function Decide(row: Row, subscription: Lookup<Subscription>, stored: Lookup<Policy>, now: int, at: Readings,
                  loc: int)
    : Decision
  {
    if row.expiresAt.Some? && row.expiresAt.value <= now then Expire
    else
      match subscription
      case NotFound => Cancel("subscription not found")
      case LookupFailed(e) => Retry(e)
      case Found(sub) =>
        if row.trigger == ManualEnded then
          if sub.status == Ended && sub.renewalMode == ManualRenew && sub.recurring && sub.endsAt.Some?
             && NotifyEnabled(sub) && NormalizeDateUTC(row.notifyDate) == NormalizeDateUTC(sub.endsAt.value)
          then Deliver
          else Cancel("manual-renew end notification no longer deliverable")
        else if row.trigger == EndingSoon then
          if !(sub.status == Active && sub.renewalMode == CancelAtPeriodEnd && sub.recurring && NotifyEnabled(sub)
               && PeriodEnd(sub).Some?)
          then Cancel("ending notification no longer deliverable")
          else
            var policy := GetPolicy(stored);
            if policy.Found? then DecideEndingSoon(row, sub, policy.value, at, loc) else Retry(policy.error)
        else
          if !(sub.status == Active && sub.recurring && sub.nextBillingDate.Some? && NotifyEnabled(sub)
               && HasFutureCharge(sub))
          then Cancel("notification no longer deliverable")
          else
            var policy := GetPolicy(stored);
            if policy.Found? then DecideBilling(row, sub, policy.value, at, loc) else Retry(policy.error)
  }

  // ---- agreement ----

  /** The row was inserted at row.scheduledFor by a scan with the given readings. */
  ghost predicate QueuedBy(row: Row, sub: Subscription, channel: Channel, policy: Policy, at: Readings, loc: int,
                           req: Request)
  {
    Schedules(sub, channel, policy, at, loc, req) && Fixed(row) == Fixed(NewRow(req, row.scheduledFor))
  }

  /** A scan with these readings would ask for this reminder. */
  ghost predicate WouldQueue(m: Reminder, sub: Subscription, channel: Channel, policy: Policy, at: Readings, loc: int) {
    exists req :: Schedules(sub, channel, policy, at, loc, req) && RequestReminder(req) == m
  }

  /** The reminder the dispatcher takes a row for: dated by its insertion, not by the scan that asked for it. */
  function AsInserted(req: Request, scheduledFor: int, loc: int): Reminder {
    RequestReminder(req).(dedupeDay := if UsesDedupeDate(req.trigger) then Some(LocalDay(Time(scheduledFor, loc)))
                                       else None)
  }

  lemma ScheduledRequestShape(sub: Subscription, channel: Channel, policy: Policy, at: Readings, loc: int, req: Request)
    requires Schedules(sub, channel, policy, at, loc, req)
    ensures req.userId == sub.userId && req.subscriptionId == sub.id && req.channelType == channel.channelType
    ensures req.trigger != ManualEnded && req.dedupeDate.Some?
    ensures req.trigger == EndingSoon <==> req in EndingRequests(sub, channel, policy, at, loc)
    ensures UsesDedupeDate(req.trigger) ==> LocalDay(req.dedupeDate.value) == LocalDay(Time(at.today, loc))
    ensures LocalDay(Time(at.counted, loc)) <= LocalDay(req.notifyDate)
  {
  }

  /**
   * The two sides agree on every reminder but the manual-renew end, for all readings on both
   * sides: whatever happened to the subscription and the policy since the row was queued, the
   * dispatcher delivers it exactly when it has not expired and a scan with the dispatcher's
   * readings would ask for the reminder the row stands for by its insertion date.
   */
  lemma DispatcherAgreesWithScheduler(row: Row, sub0: Subscription, policy0: Policy, channel: Channel, at0: Readings,
                                      req0: Request, sub: Subscription, policy: Policy, now: int, at: Readings,
                                      loc: int)
    requires QueuedBy(row, sub0, channel, policy0, at0, loc, req0)
    requires sub.id == sub0.id && sub.userId == sub0.userId
    ensures Decide(row, Found(sub), Found(policy), now, at, loc) == Deliver
            <==> (row.expiresAt.Some? ==> now < row.expiresAt.value)
                 && WouldQueue(AsInserted(req0, row.scheduledFor, loc), sub, channel, policy, at, loc)
  {
    hide Decide, NewRow, Fixed, Schedules, RequestKey, AsInserted;
    ScheduledRequestShape(sub0, channel, policy0, at0, loc, req0);
    RowShape(row, req0);
    ExpiryComesFirst(row, Found(sub), Found(policy), now, at, loc);
    var m := AsInserted(req0, row.scheduledFor, loc);
    if Decide(row, Found(sub), Found(policy), now, at, loc) == Deliver {
      if row.trigger == EndingSoon {
        DeliveredEndingIsScheduled(row, channel, req0, sub, policy, now, at, loc);
      } else {
        DeliveredBillingIsScheduled(row, channel, req0, sub, policy, now, at, loc);
      }
    }
    if WouldQueue(m, sub, channel, policy, at, loc) {
      var req :| Schedules(sub, channel, policy, at, loc, req) && RequestReminder(req) == m;
      ScheduledIsDelivered(row, channel, req0, sub, policy, req, now, at, loc);
    }
  }

  /** The insertion date is the scan's date exactly when no midnight passed in between, if the date matters at all. */
  lemma InsertedOnTheScanDay(row: Row, sub: Subscription, channel: Channel, policy: Policy, at: Readings, loc: int,
                             req: Request)
    requires QueuedBy(row, sub, channel, policy, at, loc, req)
    ensures AsInserted(req, row.scheduledFor, loc) == RequestReminder(req)
            <==> (UsesDedupeDate(row.trigger) ==>
                  LocalDay(Time(row.scheduledFor, loc)) == LocalDay(Time(at.today, loc)))
  {
    RowShape(row, req);
    ScheduledRequestShape(sub, channel, policy, at, loc, req);
  }

  /**
   * The dispatcher delivers the row exactly when it is fresh and a scan with its readings would
   * queue that very row.
   */
  ghost predicate AgreesOnTheRow(row: Row, channel: Channel, sub: Subscription, policy: Policy, now: int, at: Readings,
                                 loc: int)
  {
    Decide(row, Found(sub), Found(policy), now, at, loc) == Deliver
    <==> (row.expiresAt.Some? ==> now < row.expiresAt.value)
         && exists req :: Schedules(sub, channel, policy, at, loc, req) && RequestKey(req) == row.dedupeKey
  }

  /** The readings of a check of this row: it takes them in this order, after the row was inserted. */
  predicate ReadAfterInsertion(row: Row, now: int, at: Readings) {
    row.scheduledFor <= now <= at.counted <= at.today
  }

  /** The row was inserted when nothing could be sent for it any more: past its notify day, or expired. */
  predicate InsertedTooLate(row: Row, req: Request, loc: int) {
    || LocalDay(req.notifyDate) < LocalDay(Time(row.scheduledFor, loc))
    || (row.expiresAt.Some? && row.expiresAt.value <= row.scheduledFor)
  }

  /**
   * On the row itself the two sides agree at every check there can be, whatever becomes of the
   * subscription and the policy, exactly when no midnight passed between the scan's date and the
   * insertion, if the date is in the key, or the row came too late to be sent at all.
   */
  lemma AgreementOnTheRowExactly(row: Row, sub0: Subscription, policy0: Policy, channel: Channel, at0: Readings,
                                 req0: Request, loc: int)
    requires QueuedBy(row, sub0, channel, policy0, at0, loc, req0)
    ensures (forall sub: Subscription, policy, now, at
               | sub.id == sub0.id && sub.userId == sub0.userId && ReadAfterInsertion(row, now, at) ::
               AgreesOnTheRow(row, channel, sub, policy, now, at, loc))
            <==> (UsesDedupeDate(row.trigger) ==>
                    || LocalDay(Time(row.scheduledFor, loc)) == LocalDay(Time(at0.today, loc))
                    || InsertedTooLate(row, req0, loc))
  {
    hide Decide, NewRow, Fixed, Schedules, AsInserted, RequestKey, InsertedTooLate;
    RowShape(row, req0);
    InsertedOnTheScanDay(row, sub0, channel, policy0, at0, loc, req0);
    var m := RequestReminder(req0);
    forall req ensures RequestKey(req) == row.dedupeKey <==> RequestReminder(req) == m {
      SameReminderSameKey(req, req0);
    }
    if AsInserted(req0, row.scheduledFor, loc) == m || InsertedTooLate(row, req0, loc) {
      forall sub: Subscription, policy, now, at
        | sub.id == sub0.id && sub.userId == sub0.userId && ReadAfterInsertion(row, now, at)
        ensures AgreesOnTheRow(row, channel, sub, policy, now, at, loc)
      {
        DispatcherAgreesWithScheduler(row, sub0, policy0, channel, at0, req0, sub, policy, now, at, loc);
        if InsertedTooLate(row, req0, loc) && (row.expiresAt.Some? ==> now < row.expiresAt.value) {
          TooLateForBothSides(row, channel, req0, sub, policy, now, at, loc);
        }
      }
    } else {
      var sub, policy := InsertedAfterMidnightDisagrees(row, sub0, policy0, channel, at0, req0, loc);
      assert ReadAfterInsertion(row, row.scheduledFor, Readings(row.scheduledFor, row.scheduledFor));
    }
  }

  /** In most places an expired row is also past its notify day. */
  lemma TooLateMeansPastTheDay(row: Row, sub: Subscription, channel: Channel, policy: Policy, at: Readings, loc: int,
                               req: Request)
    requires QueuedBy(row, sub, channel, policy, at, loc, req) && loc >= -12 * HOUR
    ensures InsertedTooLate(row, req, loc) <==> LocalDay(req.notifyDate) < LocalDay(Time(row.scheduledFor, loc))
  {
    RowShape(row, req);
    ScheduledRequestShape(sub, channel, policy, at, loc, req);
    ExpiryWindowCoversTheDueDay(LocalDay(req.notifyDate), loc);
  }

  lemma TooLateForBothSides(row: Row, channel: Channel, req0: Request, sub: Subscription, policy: Policy,
                            now: int, at: Readings, loc: int)
    requires InsertedTooLate(row, req0, loc) && ReadAfterInsertion(row, now, at)
    requires row.expiresAt.Some? ==> now < row.expiresAt.value
    ensures forall req | Schedules(sub, channel, policy, at, loc, req) ::
              RequestReminder(req).notifyDay > RequestReminder(req0).notifyDay
    ensures !WouldQueue(AsInserted(req0, row.scheduledFor, loc), sub, channel, policy, at, loc)
  {
    hide Schedules;
    NormalizingKeepsTheDay(req0.notifyDate, loc);
    assert LocalDay(Time(row.scheduledFor, loc)) <= LocalDay(Time(at.counted, loc));
    forall req | Schedules(sub, channel, policy, at, loc, req)
      ensures RequestReminder(req).notifyDay > RequestReminder(req0).notifyDay
    {
      ScheduledRequestShape(sub, channel, policy, at, loc, req);
      NormalizingKeepsTheDay(req.notifyDate, loc);
    }
  }

  /**
   * A row dated by one day and inserted on a later one, in time: for a subscription due on the
   * notify day, a check right after the insertion delivers it although no scan would ask for it.
   */
  lemma InsertedAfterMidnightDisagrees(row: Row, sub0: Subscription, policy0: Policy, channel: Channel, at0: Readings,
                                       req0: Request, loc: int)
    returns (sub: Subscription, policy: Policy)
    requires QueuedBy(row, sub0, channel, policy0, at0, loc, req0) && UsesDedupeDate(row.trigger)
    requires LocalDay(Time(row.scheduledFor, loc)) != LocalDay(Time(at0.today, loc)) && !InsertedTooLate(row, req0, loc)
    ensures sub.id == sub0.id && sub.userId == sub0.userId
    ensures var t := row.scheduledFor; !AgreesOnTheRow(row, channel, sub, policy, t, Readings(t, t), loc)
  {
    var t, due := row.scheduledFor, StartOfDay(LocalDay(req0.notifyDate), loc);
    var left := LocalDay(req0.notifyDate) - LocalDay(Time(t, loc));
    sub := Subscription(sub0.id, sub0.userId, Active, true,
                        if row.trigger == EndingSoon then CancelAtPeriodEnd else ManualRenew,
                        None, Some(due), None, None);
    policy := if row.trigger == EndingSoon then Policy(left, true, false) else Policy(left + 1, false, true);
    RowShape(row, req0);
    ScheduledRequestShape(sub0, channel, policy0, at0, loc, req0);
    DueOnTheDay(row.trigger, sub, policy, req0, t, left, loc);
    hide Decide, NewRow, Fixed, Schedules, RequestKey, StillDue;
    DispatcherAgreesWithScheduler(row, sub0, policy0, channel, at0, req0, sub, policy, t, Readings(t, t), loc);
    DueMeansWouldQueue(row.trigger, sub, channel, policy, req0, t, loc);
    forall req | Schedules(sub, channel, policy, Readings(t, t), loc, req) ensures RequestKey(req) != row.dedupeKey {
      ScheduledRequestShape(sub, channel, policy, Readings(t, t), loc, req);
      SameReminderSameKey(req, req0);
    }
  }

  /** The subscription is due on the request's notify day, and at t the days left have the trigger. */
  ghost predicate DueLike(trigger: Trigger, sub: Subscription, policy: Policy, req: Request, t: int, loc: int) {
    && sub.userId == req.userId && sub.id == req.subscriptionId && req.trigger == trigger
    && sub.nextBillingDate == Some(StartOfDay(LocalDay(req.notifyDate), loc)) && sub.endsAt == None
    && StillDue(trigger, sub, policy, t, loc)
  }

  lemma DueOnTheDay(trigger: Trigger, sub: Subscription, policy: Policy, req: Request, t: int, left: int, loc: int)
    requires trigger in {ManualDaily, EndingSoon} && sub.status == Active && sub.recurring
    requires sub.notifyEnabled == None && sub.notifyDaysBefore == None && sub.endsAt == None
    requires sub.nextBillingDate == Some(StartOfDay(LocalDay(req.notifyDate), loc))
    requires sub.userId == req.userId && sub.id == req.subscriptionId && req.trigger == trigger
    requires left == LocalDay(req.notifyDate) - LocalDay(Time(t, loc)) && left >= 0
    requires if trigger == EndingSoon then sub.renewalMode == CancelAtPeriodEnd && policy == Policy(left, true, false)
             else sub.renewalMode == ManualRenew && policy == Policy(left + 1, false, true)
    ensures DueLike(trigger, sub, policy, req, t, loc)
  {
    var due := StartOfDay(LocalDay(req.notifyDate), loc);
    assert LocalDay(In(due, loc)) == LocalDay(req.notifyDate);
    NormalizingKeepsTheDay(due, loc);
    DaysUntilIsDayDifference(Time(t, loc), due, loc);
    DaysUntilIsDayDifference(Time(t, loc), NormalizeDateInTimezone(due, loc), loc);
    hide DaysUntilFrom, NormalizeDateInTimezone;
    if trigger == EndingSoon {
      assert BaseTriggers(left, left, true) != [];
    } else {
      assert TriggersFor(ManualRenew, left, left + 1, false, true) == [ManualDaily];
    }
  }

  lemma DueMeansWouldQueue(trigger: Trigger, sub: Subscription, channel: Channel, policy: Policy, req0: Request, t: int,
                           loc: int)
    requires DueLike(trigger, sub, policy, req0, t, loc) && trigger in {ManualDaily, EndingSoon}
    requires req0.channelType == channel.channelType
    ensures WouldQueue(AsInserted(req0, t, loc), sub, channel, policy, Readings(t, t), loc)
  {
    var at, due := Readings(t, t), StartOfDay(LocalDay(req0.notifyDate), loc);
    NormalizingKeepsTheDay(due, loc);
    NormalizingKeepsTheDay(req0.notifyDate, loc);
    NormalizingKeepsTheDay(Time(t, loc), loc);
    var req;
    if trigger == EndingSoon {
      req := EndingRequests(sub, channel, policy, at, loc)[0];
    } else {
      var triggers := BillingTriggers(sub, policy, t, loc);
      var i :| 0 <= i < |triggers| && triggers[i] == trigger;
      req := BillingRequests(sub, channel, policy, at, loc)[i];
    }
    assert Schedules(sub, channel, policy, at, loc, req);
    assert RequestReminder(req) == AsInserted(req0, t, loc);
  }

  lemma ExpiryComesFirst(row: Row, subscription: Lookup<Subscription>, stored: Lookup<Policy>, now: int, at: Readings,
                         loc: int)
    ensures Decide(row, subscription, stored, now, at, loc) == Expire
            <==> row.expiresAt.Some? && row.expiresAt.value <= now
  {
    hide DecideEndingSoon, DecideBilling, NormalizeDateUTC;
    if subscription.Found? && GetPolicy(stored).Found? {
      MatchingNeverExpires(row, subscription.value, GetPolicy(stored).value, at, loc);
    }
  }

  lemma MatchingNeverExpires(row: Row, sub: Subscription, policy: Policy, at: Readings, loc: int)
    ensures PeriodEnd(sub).Some? ==> DecideEndingSoon(row, sub, policy, at, loc) != Expire
    ensures sub.nextBillingDate.Some? ==> DecideBilling(row, sub, policy, at, loc) != Expire
  {
  }

  lemma RowShape(row: Row, req: Request)
    requires Fixed(row) == Fixed(NewRow(req, row.scheduledFor))
    ensures row.dedupeKey == RequestKey(req) && row.trigger == req.trigger
    ensures row.notifyDate == NormalizeDateUTC(req.notifyDate)
    ensures row.expiresAt == NewRow(req, row.scheduledFor).expiresAt
  {
  }

  lemma SameReminderSameKey(a: Request, b: Request)
    ensures RequestKey(a) == RequestKey(b) <==> RequestReminder(a) == RequestReminder(b)
  {
    KeyIdentifiesReminder(
      a.userId, a.subscriptionId, a.channelType, a.trigger, NormalizeDateUTC(a.notifyDate), RequestDedupeDate(a),
      b.userId, b.subscriptionId, b.channelType, b.trigger, NormalizeDateUTC(b.notifyDate), RequestDedupeDate(b));
  }

  lemma DeliveredEndingIsScheduled(row: Row, channel: Channel, req0: Request, sub: Subscription, policy: Policy,
                                   now: int, at: Readings, loc: int)
    requires row.trigger == EndingSoon && Fixed(row) == Fixed(NewRow(req0, row.scheduledFor))
    requires req0.userId == sub.userId && req0.subscriptionId == sub.id && req0.channelType == channel.channelType
    requires Decide(row, Found(sub), Found(policy), now, at, loc) == Deliver
    ensures WouldQueue(AsInserted(req0, row.scheduledFor, loc), sub, channel, policy, at, loc)
  {
    RowShape(row, req0);
    var req := EndingRequests(sub, channel, policy, at, loc)[0];
    NormalizingKeepsTheDay(Time(at.today, loc), loc);
    NormalizingKeepsTheDay(Time(row.scheduledFor, loc), loc);
    NormalizingKeepsTheDay(req0.notifyDate, loc);
    NormalizingKeepsTheDay(req.notifyDate, loc);
    assert Schedules(sub, channel, policy, at, loc, req);
  }

  lemma DeliveredBillingIsScheduled(row: Row, channel: Channel, req0: Request, sub: Subscription, policy: Policy,
                                    now: int, at: Readings, loc: int)
    requires row.trigger !in {EndingSoon, ManualEnded} && Fixed(row) == Fixed(NewRow(req0, row.scheduledFor))
    requires req0.userId == sub.userId && req0.subscriptionId == sub.id && req0.channelType == channel.channelType
    requires Decide(row, Found(sub), Found(policy), now, at, loc) == Deliver
    ensures WouldQueue(AsInserted(req0, row.scheduledFor, loc), sub, channel, policy, at, loc)
  {
    RowShape(row, req0);
    var triggers := BillingTriggers(sub, policy, at.counted, loc);
    var i :| 0 <= i < |triggers| && triggers[i] == row.trigger;
    var req := BillingRequests(sub, channel, policy, at, loc)[i];
    NormalizingKeepsTheDay(Time(at.today, loc), loc);
    NormalizingKeepsTheDay(Time(row.scheduledFor, loc), loc);
    NormalizingKeepsTheDay(req0.notifyDate, loc);
    NormalizingKeepsTheDay(req.notifyDate, loc);
    assert Schedules(sub, channel, policy, at, loc, req);
  }

  lemma ScheduledIsDelivered(row: Row, channel: Channel, req0: Request, sub: Subscription, policy: Policy, req: Request,
                             now: int, at: Readings, loc: int)
    requires Fixed(row) == Fixed(NewRow(req0, row.scheduledFor))
    requires Schedules(sub, channel, policy, at, loc, req)
    requires RequestReminder(req) == AsInserted(req0, row.scheduledFor, loc)
    ensures Decide(row, Found(sub), Found(policy), now, at, loc) in {Deliver, Expire}
  {
    RowShape(row, req0);
    ScheduledRequestShape(sub, channel, policy, at, loc, req);
    NormalizingKeepsTheDay(Time(at.today, loc), loc);
    NormalizingKeepsTheDay(Time(row.scheduledFor, loc), loc);
    NormalizingKeepsTheDay(req0.notifyDate, loc);
    NormalizingKeepsTheDay(req.notifyDate, loc);
    if req.trigger != EndingSoon {
      var triggers := BillingTriggers(sub, policy, at.counted, loc);
      var i :| 0 <= i < |triggers| && req == BillingRequest(sub, channel, triggers[i], at.today, loc);
      assert req.trigger in triggers;
    }
  }

  /** The 36-hour window is exactly enough for every location at or east of twelve hours behind UTC. */
  lemma ExpiryWindowCoversTheDueDay(dueDay: int, loc: int)
    ensures (forall now | LocalDay(Time(now, loc)) <= dueDay :: now < dueDay * DAY + EXPIRY_WINDOW)
            <==> loc >= -12 * HOUR
  {
    var last := (dueDay + 1) * DAY - loc - 1;
    assert LocalDay(Time(last, loc)) == dueDay;
  }

  // ---- the manual-renew end ----

  /**
   * The scan reads an end date in its own zone, the dispatcher in the date's: the reminder of an
   * end is delivered, the subscription unchanged, exactly when both see the same day.
   */
  lemma EndedReminderIsDeliveredExactly(row: Row, sub: Subscription, channel: Channel, req: Request,
                                        policy: Lookup<Policy>, now: int, at: Readings, loc: int)
    requires sub.status == Ended && sub.renewalMode == ManualRenew && sub.recurring
    requires req in EndedRequests(sub, channel, loc) && Fixed(row) == Fixed(NewRow(req, row.scheduledFor))
    ensures Decide(row, Found(sub), policy, now, at, loc) == Deliver
            <==> (row.expiresAt.Some? ==> now < row.expiresAt.value)
                 && LocalDay(In(sub.endsAt.value, loc)) == LocalDay(sub.endsAt.value)
  {
    RowShape(row, req);
    NormalizingKeepsTheDay(sub.endsAt.value, loc);
    hide Fixed, NewRow;
  }

  /** For an end stored as midnight UTC, that is at offsets that are not negative. */
  lemma MidnightEndIsTheSameDayExactly(day: int, loc: int)
    requires -DAY < loc < DAY
    ensures LocalDay(In(StartOfDay(day, 0), loc)) == LocalDay(StartOfDay(day, 0)) <==> loc >= 0
  {
  }

  // ---- dispatched on the day it was queued ----

  /** With the days counted at now, the subscription has a trigger that this row may be sent for. */
  predicate StillDue(trigger: Trigger, sub: Subscription, policy: Policy, now: int, loc: int) {
    if trigger == EndingSoon then EndingTriggers(sub, policy, now, loc) != []
    else trigger in BillingTriggers(sub, policy, now, loc)
  }

  /**
   * Checked on the local day of its insertion, with subscription and policy unchanged, a reminder
   * is delivered exactly when its trigger is still due; midnights inside the scan included.
   */
  lemma DeliveredOnItsDayExactlyIfStillDue(row: Row, sub: Subscription, channel: Channel, policy: Policy, at0: Readings,
                                           req: Request, now: int, at: Readings, loc: int)
    requires QueuedBy(row, sub, channel, policy, at0, loc, req)
    requires LocalDay(Time(at.today, loc)) == LocalDay(Time(row.scheduledFor, loc))
    requires loc >= -12 * HOUR && now <= at.counted
    ensures Decide(row, Found(sub), Found(policy), now, at, loc) == Deliver
            <==> StillDue(row.trigger, sub, policy, at.counted, loc)
  {
    hide Decide, Fixed, Schedules;
    RowShape(row, req);
    ScheduledRequestShape(sub, channel, policy, at0, loc, req);
    DispatcherAgreesWithScheduler(row, sub, policy, channel, at0, req, sub, policy, now, at, loc);
    StillDueMeansScheduled(sub, channel, policy, at0, req, at, loc);
    NormalizingKeepsTheDay(req.notifyDate, loc);
    if StillDue(row.trigger, sub, policy, at.counted, loc) {
      StillDueMeansNotPast(sub, channel, policy, at0, req, at.counted, loc);
      assert LocalDay(Time(now, loc)) <= LocalDay(Time(at.counted, loc));
      ExpiryWindowCoversTheDueDay(LocalDay(req.notifyDate), loc);
    }
  }

  lemma StillDueMeansScheduled(sub: Subscription, channel: Channel, policy: Policy, at0: Readings, req: Request,
                               at: Readings, loc: int)
    requires Schedules(sub, channel, policy, at0, loc, req)
    ensures WouldQueue(AsInserted(req, at.today, loc), sub, channel, policy, at, loc)
            <==> StillDue(req.trigger, sub, policy, at.counted, loc)
  {
    ScheduledRequestShape(sub, channel, policy, at0, loc, req);
    var m := AsInserted(req, at.today, loc);
    NormalizingKeepsTheDay(Time(at.today, loc), loc);
    if StillDue(req.trigger, sub, policy, at.counted, loc) {
      if req.trigger == EndingSoon {
        var again := EndingRequests(sub, channel, policy, at, loc)[0];
        assert Schedules(sub, channel, policy, at, loc, again) && RequestReminder(again) == m;
      } else {
        var triggers := BillingTriggers(sub, policy, at.counted, loc);
        var i :| 0 <= i < |triggers| && triggers[i] == req.trigger;
        var again := BillingRequests(sub, channel, policy, at, loc)[i];
        assert Schedules(sub, channel, policy, at, loc, again) && RequestReminder(again) == m;
      }
    }
  }

  lemma StillDueMeansNotPast(sub: Subscription, channel: Channel, policy: Policy, at0: Readings, req: Request, now: int,
                             loc: int)
    requires Schedules(sub, channel, policy, at0, loc, req) && StillDue(req.trigger, sub, policy, now, loc)
    ensures LocalDay(Time(now, loc)) <= LocalDay(req.notifyDate)
  {
    hide Schedules;
    StillDueMeansScheduled(sub, channel, policy, at0, req, Readings(now, now), loc);
    var again :| Schedules(sub, channel, policy, Readings(now, now), loc, again)
                 && RequestReminder(again) == AsInserted(req, now, loc);
    ScheduledRequestShape(sub, channel, policy, Readings(now, now), loc, again);
    NormalizingKeepsTheDay(req.notifyDate, loc);
    NormalizingKeepsTheDay(again.notifyDate, loc);
  }

  /**
   * A reminder dispatched on the local day it was queued, with subscription and policy unchanged,
   * is delivered: it is neither cancelled as stale nor expired.
   */
  lemma SameDayReminderIsDelivered(row: Row, sub: Subscription, channel: Channel, policy: Policy, at0: Readings,
                                   req: Request, now: int, at: Readings, loc: int)
    requires QueuedBy(row, sub, channel, policy, at0, loc, req)
    requires LocalDay(Time(at.today, loc)) == LocalDay(Time(row.scheduledFor, loc))
    requires LocalDay(Time(at.counted, loc)) == LocalDay(Time(at0.counted, loc))
    requires loc >= -12 * HOUR && now <= at.counted
    ensures Decide(row, Found(sub), Found(policy), now, at, loc) == Deliver
  {
    hide Decide, Fixed, NewRow;
    RowShape(row, req);
    DeliveredOnItsDayExactlyIfStillDue(row, sub, channel, policy, at0, req, now, at, loc);
    SameDaySameTriggers(sub, policy, at0.counted, at.counted, loc);
    ScheduledIsDue(sub, channel, policy, at0, req, loc);
  }

  /**
   * A scan that crosses midnight: a days_before or due_day row it counts before midnight and
   * inserts after it is delivered on its insertion day exactly when no midnight was crossed.
   */
  lemma CountedBeforeMidnight(row: Row, sub: Subscription, channel: Channel, policy: Policy, at0: Readings,
                              req: Request, now: int, at: Readings, loc: int)
    requires QueuedBy(row, sub, channel, policy, at0, loc, req) && row.trigger in {DaysBefore, DueDay}
    requires LocalDay(Time(at.today, loc)) == LocalDay(Time(row.scheduledFor, loc)) == LocalDay(Time(at.counted, loc))
    requires loc >= -12 * HOUR && now <= at.counted
    ensures Decide(row, Found(sub), Found(policy), now, at, loc) == Deliver
            <==> LocalDay(Time(at0.counted, loc)) == LocalDay(Time(row.scheduledFor, loc))
  {
    hide Decide, Fixed, NewRow;
    RowShape(row, req);
    DeliveredOnItsDayExactlyIfStillDue(row, sub, channel, policy, at0, req, now, at, loc);
    ScheduledRequestShape(sub, channel, policy, at0, loc, req);
    hide Schedules, BillingTriggers, StillDue, NormalizeDateInTimezone;
    ScheduledIsDue(sub, channel, policy, at0, req, loc);
    TriggerPinsTheDay(row.trigger, sub, policy, at0.counted, at.counted, loc);
  }

  lemma ScheduledIsDue(sub: Subscription, channel: Channel, policy: Policy, at: Readings, req: Request, loc: int)
    requires Schedules(sub, channel, policy, at, loc, req)
    ensures StillDue(req.trigger, sub, policy, at.counted, loc)
  {
    hide EndingTriggers;
    if req in BillingRequests(sub, channel, policy, at, loc) {
      var triggers := BillingTriggers(sub, policy, at.counted, loc);
      var i :| 0 <= i < |triggers| && req == BillingRequest(sub, channel, triggers[i], at.today, loc);
      assert req.trigger in triggers;
    }
  }

  lemma TriggerPinsTheDay(trigger: Trigger, sub: Subscription, policy: Policy, t: int, now: int, loc: int)
    requires trigger in {DaysBefore, DueDay} && StillDue(trigger, sub, policy, t, loc)
    ensures StillDue(trigger, sub, policy, now, loc) <==> LocalDay(Time(t, loc)) == LocalDay(Time(now, loc))
  {
    DaysUntilIsDayDifference(Time(t, loc), sub.nextBillingDate.value, loc);
    DaysUntilIsDayDifference(Time(now, loc), sub.nextBillingDate.value, loc);
    hide DaysUntilFrom;
  }

  /** Triggers depend on the clock only through the local day. */
  lemma SameDaySameTriggers(sub: Subscription, policy: Policy, t: int, now: int, loc: int)
    requires LocalDay(Time(now, loc)) == LocalDay(Time(t, loc))
    ensures EndingTriggers(sub, policy, now, loc) == EndingTriggers(sub, policy, t, loc)
    ensures BillingTriggers(sub, policy, now, loc) == BillingTriggers(sub, policy, t, loc)
  {
  }

  /** A scan depends on each of its readings only through the local day. */
  lemma SameDaySameScan(sub: Subscription, channel: Channel, policy: Policy, a: Readings, b: Readings, loc: int)
    requires LocalDay(Time(a.today, loc)) == LocalDay(Time(b.today, loc))
    requires LocalDay(Time(a.counted, loc)) == LocalDay(Time(b.counted, loc))
    ensures EndingRequests(sub, channel, policy, a, loc) == EndingRequests(sub, channel, policy, b, loc)
    ensures BillingRequests(sub, channel, policy, a, loc) == BillingRequests(sub, channel, policy, b, loc)
  {
    SameDaySameTriggers(sub, policy, a.counted, b.counted, loc);
  }
}
