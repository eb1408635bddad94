/** The outbox dedupe key and the logical reminder it stands for. */
module DedupeKeys {
  import opened Basics
  import opened Calendar
  import opened Text

  datatype Trigger = DaysBefore | DueDay | ManualDaily | ManualEnded | EndingSoon

  function TriggerText(t: Trigger): string {
    match t
    case DaysBefore => "days_before"
    case DueDay => "due_day"
    case ManualDaily => "manual_renew_daily"
    case ManualEnded => "manual_renew_ended"
    case EndingSoon => "ending_soon"
  }

  predicate UsesDedupeDate(t: Trigger) {
    t == ManualDaily || t == EndingSoon
  }

  function DayText(t: Time): string {
    FormatDate(CivilDate(LocalDay(NormalizeDateUTC(t))))
  }

  function KeyTail(channelType: string, trigger: Trigger, notifyDate: Time, dedupeDate: Time): string {
    var tail := channelType + [':'] + TriggerText(trigger) + [':'] + DayText(notifyDate);
    if UsesDedupeDate(trigger) then tail + [':'] + DayText(dedupeDate) else tail
  }

  function DedupeKey(userId: nat, subscriptionId: nat, channelType: string, trigger: Trigger,
                     notifyDate: Time, dedupeDate: Time): string
  {
    "v1" + ":" + Decimal(userId) + ":" + Decimal(subscriptionId) + ":"
    + KeyTail(channelType, trigger, notifyDate, dedupeDate)
  }

  /** What makes two reminders the same: the dedupe day counts only for triggers that use it. */
  datatype Reminder = Reminder(userId: nat, subscriptionId: nat, channelType: string, trigger: Trigger,
                               notifyDay: int, dedupeDay: Option<int>)

  function ReminderOf(userId: nat, subscriptionId: nat, channelType: string, trigger: Trigger,
                      notifyDate: Time, dedupeDate: Time): Reminder
  {
    Reminder(userId, subscriptionId, channelType, trigger, LocalDay(notifyDate),
             if UsesDedupeDate(trigger) then Some(LocalDay(dedupeDate)) else None)
  }

  function TriggerFromText(s: string): Option<Trigger> {
    if s == "days_before" then Some(DaysBefore)
    else if s == "due_day" then Some(DueDay)
    else if s == "manual_renew_daily" then Some(ManualDaily)
    else if s == "manual_renew_ended" then Some(ManualEnded)
    else if s == "ending_soon" then Some(EndingSoon)
    else None
  }

  /** The part of a key behind the two ids: channel type, trigger, notify day, dedupe day. */
  datatype Tail = Tail(channelType: string, trigger: Trigger, notifyDay: int, dedupeDay: Option<int>)

  function TextDay(s: string): int {
    DayNumber(ParseDate(s))
  }

  /** Dates are cut off the back, so the channel type may hold any characters, colons included. */
  function ParseTail(s: string): Option<Tail> {
    var (front, lastDate) := CutLast(s, ':');
    var (channel, word) := CutLast(front, ':');
    match TriggerFromText(word)
    case Some(trigger) => Some(Tail(channel, trigger, TextDay(lastDate), None))
    case None =>
      var (channel', word') := CutLast(channel, ':');
      match TriggerFromText(word')
      case Some(trigger) => Some(Tail(channel', trigger, TextDay(word), Some(TextDay(lastDate))))
      case None => None
  }

  /** Reads a key back into the reminder it stands for. */
  function ParseKey(key: string): Option<Reminder> {
    var (_, afterVersion) := CutFirst(key, ':');
    var (user, afterUser) := CutFirst(afterVersion, ':');
    var (subscription, rest) := CutFirst(afterUser, ':');
    match ParseTail(rest)
    case Some(t) =>
      Some(Reminder(ParseDecimal(user), ParseDecimal(subscription), t.channelType, t.trigger, t.notifyDay, t.dedupeDay))
    case None => None
  }

  lemma DayTextReadsBack(t: Time)
    ensures TextDay(DayText(t)) == LocalDay(t)
    ensures ':' !in DayText(t)
    ensures TriggerFromText(DayText(t)) == None
  {
    NormalizingKeepsTheDay(t, 0);
    DayTextRoundTrip(LocalDay(t));
    var s := DayText(t);
    assert s == "" || s[0] in s;
  }

  lemma TriggerTextReadsBack(trigger: Trigger)
    ensures TriggerFromText(TriggerText(trigger)) == Some(trigger)
    ensures ':' !in TriggerText(trigger)
  {
  }

  lemma CutIds(userId: nat, subscriptionId: nat, rest: string)
    ensures var (v, r1) := CutFirst("v1" + ":" + Decimal(userId) + ":" + Decimal(subscriptionId) + ":" + rest, ':');
            var (u, r2) := CutFirst(r1, ':');
            var (s, r3) := CutFirst(r2, ':');
            v == "v1" && ParseDecimal(u) == userId && ParseDecimal(s) == subscriptionId && r3 == rest
  {
    var u, s := Decimal(userId), Decimal(subscriptionId);
    DecimalRoundTrip(userId);
    DecimalRoundTrip(subscriptionId);
    assert "v1" + ":" + u + ":" + s + ":" + rest == "v1" + [':'] + (u + [':'] + (s + [':'] + rest));
    CutFirstOfJoin("v1", ':', u + [':'] + (s + [':'] + rest));
    CutFirstOfJoin(u, ':', s + [':'] + rest);
    CutFirstOfJoin(s, ':', rest);
  }

  lemma TailRoundTrip(channelType: string, trigger: Trigger, notifyDate: Time, dedupeDate: Time)
    ensures ParseTail(KeyTail(channelType, trigger, notifyDate, dedupeDate))
            == Some(Tail(channelType, trigger, LocalDay(notifyDate),
                         if UsesDedupeDate(trigger) then Some(LocalDay(dedupeDate)) else None))
  {
    var word, day, dedupe := TriggerText(trigger), DayText(notifyDate), DayText(dedupeDate);
    TriggerTextReadsBack(trigger);
    DayTextReadsBack(notifyDate);
    DayTextReadsBack(dedupeDate);
    CutLastOfJoin(channelType, ':', word);
    CutLastOfJoin(channelType + [':'] + word, ':', day);
    CutLastOfJoin(channelType + [':'] + word + [':'] + day, ':', dedupe);
  }

  const TRIGGER_WORDS: set<(Trigger, string)> :=
    {(DaysBefore, "days_before"), (DueDay, "due_day"), (ManualDaily, "manual_renew_daily"),
     (ManualEnded, "manual_renew_ended"), (EndingSoon, "ending_soon")}

  /** The key letter by letter, d and e being the calendar dates of the two local days. */
  lemma KeyTextExactly(userId: nat, subscriptionId: nat, channelType: string, trigger: Trigger, word: string,
                       notifyDate: Time, dedupeDate: Time, d: Date, e: Date)
    requires (trigger, word) in TRIGGER_WORDS
    requires IsCalendarDate(d) && DayNumber(d) == LocalDay(notifyDate)
    requires IsCalendarDate(e) && DayNumber(e) == LocalDay(dedupeDate)
    ensures var ids := "v1:" + Decimal(userId) + ":" + Decimal(subscriptionId) + ":";
            var days := if trigger == ManualDaily || trigger == EndingSoon then FormatDate(d) + ":" + FormatDate(e)
                        else FormatDate(d);
            DedupeKey(userId, subscriptionId, channelType, trigger, notifyDate, dedupeDate)
            == ids + (channelType + ":" + word + ":" + days)
  {
    hide Decimal, FormatDate, IsCalendarDate, DayNumber, CivilDate;
    NormalizingKeepsTheDay(notifyDate, 0);
    NormalizingKeepsTheDay(dedupeDate, 0);
    DateIsTheOnlyOne(LocalDay(notifyDate), d);
    DateIsTheOnlyOne(LocalDay(dedupeDate), e);
    assert "v1" + ":" == "v1:" && ":" == [':'];
    var front := channelType + ":" + word + ":";
    assert front + (FormatDate(d) + ":" + FormatDate(e)) == front + FormatDate(d) + ":" + FormatDate(e) by {
      Regroup(front, FormatDate(d), ":", FormatDate(e));
    }
  }

  lemma Regroup(a: string, b: string, c: string, d: string)
    ensures a + (b + c + d) == a + b + c + d
  {
  }

  /** The key loses nothing: the reminder is recovered from it, whatever the channel type is. */
  lemma KeyRoundTrip(userId: nat, subscriptionId: nat, channelType: string, trigger: Trigger,
                     notifyDate: Time, dedupeDate: Time)
    ensures ParseKey(DedupeKey(userId, subscriptionId, channelType, trigger, notifyDate, dedupeDate))
            == Some(ReminderOf(userId, subscriptionId, channelType, trigger, notifyDate, dedupeDate))
  {
    TailRoundTrip(channelType, trigger, notifyDate, dedupeDate);
    CutIds(userId, subscriptionId, KeyTail(channelType, trigger, notifyDate, dedupeDate));
  }

  /** Equal keys mean the same reminder, and the same reminder always gets the same key. */
  lemma KeyIdentifiesReminder(u1: nat, s1: nat, c1: string, t1: Trigger, n1: Time, d1: Time,
                              u2: nat, s2: nat, c2: string, t2: Trigger, n2: Time, d2: Time)
    ensures DedupeKey(u1, s1, c1, t1, n1, d1) == DedupeKey(u2, s2, c2, t2, n2, d2)
            <==> ReminderOf(u1, s1, c1, t1, n1, d1) == ReminderOf(u2, s2, c2, t2, n2, d2)
  {
    KeyRoundTrip(u1, s1, c1, t1, n1, d1);
    KeyRoundTrip(u2, s2, c2, t2, n2, d2);
  }
}
