/**
 * The failed-notification section of the action center: one newest-first pass over the failures,
 * with an index of the latest delivery per (subscription, channel) in place of a lookup per failure.
 */
module RecoveryIndex {
  import opened Text

  const SCAN_LIMIT: nat := 100

  datatype Log = Log(id: nat, user: nat, subscription: nat, channel: string, delivered: bool, sentAt: int)

  datatype Action = Action(key: string, log: Log)

  // ---- keys ----

  function ActionKey(subscription: nat, channel: string): string {
    var qualifier := TrimSpace(channel);
    "subscription:"
    + (Decimal(subscription) + [':'] + ("notification_failed" + if qualifier == "" then "" else [':'] + qualifier))
  }

  function RecoveryKey(subscription: nat, channel: string): string {
    Decimal(subscription) + [':'] + channel
  }

  lemma DecimalPrefix(m: nat, n: nat, s: string, t: string)
    requires Decimal(m) + [':'] + s == Decimal(n) + [':'] + t
    ensures m == n && s == t
  {
    hide Decimal, ParseDecimal;
    DecimalRoundTrip(m);
    DecimalRoundTrip(n);
    CutFirstOfJoin(Decimal(m), ':', s);
    CutFirstOfJoin(Decimal(n), ':', t);
  }

  lemma RecoveryKeyIdentifies(m: nat, n: nat, a: string, b: string)
    ensures RecoveryKey(m, a) == RecoveryKey(n, b) <==> m == n && a == b
  {
    if RecoveryKey(m, a) == RecoveryKey(n, b) { DecimalPrefix(m, n, a, b); }
  }

  /** The action key forgets the white space around a channel type and nothing else. */
  lemma ActionKeyIdentifies(m: nat, n: nat, a: string, b: string)
    ensures ActionKey(m, a) == ActionKey(n, b) <==> m == n && TrimSpace(a) == TrimSpace(b)
  {
    hide Decimal, TrimSpace;
    if ActionKey(m, a) == ActionKey(n, b) {
      var p, q := TrimSpace(a), TrimSpace(b);
      var s := "notification_failed" + if p == "" then "" else [':'] + p;
      var t := "notification_failed" + if q == "" then "" else [':'] + q;
      var x, y := Decimal(m) + [':'] + s, Decimal(n) + [':'] + t;
      assert x == ActionKey(m, a)[|"subscription:"|..] && y == ActionKey(n, b)[|"subscription:"|..];
      DecimalPrefix(m, n, s, t);
      assert s[|"notification_failed"|..] == if p == "" then "" else [':'] + p;
      assert t[|"notification_failed"|..] == if q == "" then "" else [':'] + q;
      assert p != "" ==> ([':'] + p)[1..] == p;
      assert q != "" ==> ([':'] + q)[1..] == q;
    }
  }

  // ---- the two queries over the log table ----

  function Select(table: seq<Log>, user: nat, delivered: bool, since: int): (r: seq<Log>)
    ensures forall l :: l in r <==> l in table && l.user == user && l.delivered == delivered && l.sentAt >= since
  {
    if table == [] then []
    else
      var rest, l := Select(table[1..], user, delivered, since), table[0];
      if l.user == user && l.delivered == delivered && l.sentAt >= since then [l] + rest else rest
  }

  predicate Newer(a: Log, b: Log) {
    a.sentAt > b.sentAt || (a.sentAt == b.sentAt && a.id > b.id)
  }

  predicate NewestFirst(logs: seq<Log>) {
    forall i, j | 0 <= i < j < |logs| :: !Newer(logs[j], logs[i])
  }

  function Insert(log: Log, logs: seq<Log>): seq<Log> {
    if logs == [] || !Newer(logs[0], log) then [log] + logs else [logs[0]] + Insert(log, logs[1..])
  }

  function OrderBySentAtDesc(logs: seq<Log>): seq<Log> {
    if logs == [] then [] else Insert(logs[0], OrderBySentAtDesc(logs[1..]))
  }

  lemma {:induction false} InsertElements(log: Log, logs: seq<Log>)
    ensures multiset(Insert(log, logs)) == multiset(logs) + multiset{log}
  {
    hide Newer;
    if logs != [] && Newer(logs[0], log) {
      InsertElements(log, logs[1..]);
      assert logs == [logs[0]] + logs[1..];
    }
  }

  lemma {:induction false} InsertKeepsOrder(log: Log, logs: seq<Log>)
    requires NewestFirst(logs)
    ensures NewestFirst(Insert(log, logs))
  {
    if logs == [] {
    } else if !Newer(logs[0], log) {
      forall j | 0 <= j < |logs| ensures !Newer(logs[j], log) {
        assert j > 0 ==> !Newer(logs[j], logs[0]);
      }
    } else {
      var rest := Insert(log, logs[1..]);
      InsertKeepsOrder(log, logs[1..]);
      InsertElements(log, logs[1..]);
      forall l | l in rest ensures !Newer(l, logs[0]) {
        assert l in multiset(rest);
        assert l in multiset(logs[1..]) || l == log;
      }
    }
  }

  lemma {:induction false} OrderIsNewestFirst(logs: seq<Log>)
    ensures NewestFirst(OrderBySentAtDesc(logs)) && multiset(OrderBySentAtDesc(logs)) == multiset(logs)
  {
    hide Newer, Insert;
    if logs != [] {
      OrderIsNewestFirst(logs[1..]);
      InsertKeepsOrder(logs[0], OrderBySentAtDesc(logs[1..]));
      InsertElements(logs[0], OrderBySentAtDesc(logs[1..]));
      assert logs == [logs[0]] + logs[1..];
    }
  }

  /** The failures the pass looks at: the newest hundred since the cut-off. */
  function Scanned(table: seq<Log>, user: nat, since: int): seq<Log> {
    var failures := OrderBySentAtDesc(Select(table, user, false, since));
    if |failures| <= SCAN_LIMIT then failures else failures[..SCAN_LIMIT]
  }

  /** The failures left out are no newer than any failure scanned, and there are some only beyond a hundred. */
  lemma ScannedAreTheNewest(table: seq<Log>, user: nat, since: int)
    ensures var logs := Scanned(table, user, since);
            && NewestFirst(logs)
            && (forall f | f in logs :: f in table && f.user == user && !f.delivered && f.sentAt >= since)
            && |logs| <= 100
            && (forall f | f in table && f.user == user && !f.delivered && f.sentAt >= since && f !in logs ::
                  |logs| == 100 && forall l | l in logs :: !Newer(f, l))
  {
    hide Select, OrderBySentAtDesc;
    var selected := Select(table, user, false, since);
    var ordered := OrderBySentAtDesc(selected);
    OrderIsNewestFirst(selected);
    assert forall f :: (f in selected <==> f in multiset(selected)) && (f in ordered <==> f in multiset(ordered));
    forall f | f in ordered && f !in Scanned(table, user, since)
      ensures |ordered| > SCAN_LIMIT && forall l | l in Scanned(table, user, since) :: !Newer(f, l)
    {
      var i :| 0 <= i < |ordered| && ordered[i] == f;
    }
  }

  // ---- the lookup per failure ----

  /** A later delivery on the same subscription and channel, anywhere in the log. */
  ghost predicate Recovered(table: seq<Log>, f: Log) {
    exists s | s in table ::
      s.delivered && s.user == f.user && s.subscription == f.subscription && s.channel == f.channel
      && s.sentAt > f.sentAt
  }

  function KeyOf(f: Log): string {
    ActionKey(f.subscription, f.channel)
  }

  ghost predicate IsNewestOfItsKey(logs: seq<Log>, i: nat)
    requires i < |logs|
  {
    forall j | 0 <= j < i :: KeyOf(logs[j]) != KeyOf(logs[i])
  }

  /** For each key among the first n failures, its newest failure unless recovered. */
  ghost function Open(table: seq<Log>, logs: seq<Log>, n: nat): seq<Action>
    requires n <= |logs|
  {
    if n == 0 then []
    else
      var f := logs[n - 1];
      Open(table, logs, n - 1)
      + if IsNewestOfItsKey(logs, n - 1) && !Recovered(table, f) then [Action(KeyOf(f), f)] else []
  }

  ghost function ActiveOnly(actions: seq<Action>, active: set<nat>): seq<Action> {
    if actions == [] then []
    else
      var last := actions[|actions| - 1];
      ActiveOnly(actions[..|actions| - 1], active) + if last.log.subscription in active then [last] else []
  }

  // ---- the one-pass form ----

  method NotificationRecoveryIndex(table: seq<Log>, user: nat, since: int) returns (latest: map<string, int>)
    ensures forall f: Log | f.user == user && f.sentAt >= since ::
              (var key := RecoveryKey(f.subscription, f.channel);
               key in latest && latest[key] > f.sentAt) <==> Recovered(table, f)
  {
    hide RecoveryKey, Select;
    var logs := Select(table, user, true, since);
    latest := map[];
    for i := 0 to |logs|
      invariant forall s | s in logs[..i] ::
                  var key := RecoveryKey(s.subscription, s.channel); key in latest && latest[key] >= s.sentAt
      invariant forall key | key in latest ::
                  exists s | s in logs[..i] :: RecoveryKey(s.subscription, s.channel) == key && s.sentAt == latest[key]
    {
      var sent := logs[i];
      assert logs[..i + 1] == logs[..i] + [sent];
      var key := RecoveryKey(sent.subscription, sent.channel);
      if key !in latest || sent.sentAt > latest[key] {
        latest := latest[key := sent.sentAt];
      }
    }
    assert logs[..|logs|] == logs;
    forall f: Log | f.user == user && f.sentAt >= since
      ensures (var key := RecoveryKey(f.subscription, f.channel);
               key in latest && latest[key] > f.sentAt) <==> Recovered(table, f)
    {
      var key := RecoveryKey(f.subscription, f.channel);
      if key in latest && latest[key] > f.sentAt {
        var s :| s in logs && RecoveryKey(s.subscription, s.channel) == key && s.sentAt == latest[key];
        RecoveryKeyIdentifies(s.subscription, f.subscription, s.channel, f.channel);
      }
    }
  }

  method NotificationFailureActions(table: seq<Log>, user: nat, since: int, active: set<nat>)
    returns (items: seq<Action>)
    ensures var logs := Scanned(table, user, since);
            items == ActiveOnly(Open(table, logs, |logs|), active)
  {
    hide Scanned, RecoveryKey, KeyOf, Recovered, NewestFirst;
    ScannedAreTheNewest(table, user, since);
    var logs := Scanned(table, user, since);
    var latest := NotificationRecoveryIndex(table, user, since);
    var seen: set<string> := {};
    var candidates: seq<Action> := [];
    for i := 0 to |logs|
      invariant forall key :: key in seen <==> exists j | 0 <= j < i :: KeyOf(logs[j]) == key
      invariant candidates == Open(table, logs, i)
    {
      var log := logs[i];
      var key := KeyOf(log);
      if key in seen {
        continue;
      }
      seen := seen + {key};
      var recoveryKey := RecoveryKey(log.subscription, log.channel);
      if recoveryKey in latest && latest[recoveryKey] > log.sentAt {
        continue;
      }
      candidates := candidates + [Action(key, log)];
    }
    items := [];
    for i := 0 to |candidates|
      invariant items == ActiveOnly(candidates[..i], active)
    {
      assert candidates[..i + 1][..i] == candidates[..i];
      if candidates[i].log.subscription in active {
        items := items + [candidates[i]];
      }
    }
    assert candidates[..|candidates|] == candidates;
  }

  // ---- the one pass against the lookup per failure ----

  /** A key is reported exactly when some scanned failure with that key is unrecovered. */
  ghost predicate AgreesWithLookup(table: seq<Log>, user: nat, since: int) {
    var logs := Scanned(table, user, since);
    forall key :: Reports(Open(table, logs, |logs|), key) <==> NeedsReport(table, logs, key)
  }

  ghost predicate Reports(actions: seq<Action>, key: string) {
    exists a | a in actions :: a.key == key
  }

  ghost predicate NeedsReport(table: seq<Log>, logs: seq<Log>, key: string) {
    exists f | f in logs :: KeyOf(f) == key && !Recovered(table, f)
  }

  ghost predicate Spelled(table: seq<Log>, channels: set<string>) {
    forall l | l in table :: l.channel in channels
  }

  /** No two channel types differ only in the white space around them. */
  ghost predicate Separate(channels: set<string>) {
    forall a, b | a in channels && b in channels && TrimSpace(a) == TrimSpace(b) :: a == b
  }

  ghost predicate DistinctKeys(actions: seq<Action>) {
    forall i, j | 0 <= i < j < |actions| :: actions[i].key != actions[j].key
  }

  /** Always: one action per key, for its newest scanned failure, and only if that one is unrecovered. */
  lemma {:induction false} OpenActions(table: seq<Log>, logs: seq<Log>, n: nat)
    requires n <= |logs|
    ensures forall a :: a in Open(table, logs, n) <==>
              exists i | 0 <= i < n ::
                a == Action(KeyOf(logs[i]), logs[i]) && IsNewestOfItsKey(logs, i) && !Recovered(table, logs[i])
    ensures DistinctKeys(Open(table, logs, n))
  {
    hide KeyOf, Recovered;
    if n > 0 {
      OpenActions(table, logs, n - 1);
      var f, before := logs[n - 1], Open(table, logs, n - 1);
      if IsNewestOfItsKey(logs, n - 1) {
        forall a | a in before ensures a.key != KeyOf(f) {
          var j :| 0 <= j < n - 1 && a == Action(KeyOf(logs[j]), logs[j]);
        }
      }
    }
  }

  lemma {:induction false} NewestOfKey(logs: seq<Log>, i: nat) returns (j: nat)
    requires i < |logs|
    ensures j <= i && KeyOf(logs[j]) == KeyOf(logs[i]) && IsNewestOfItsKey(logs, j)
  {
    j := i;
    if k :| 0 <= k < i && KeyOf(logs[k]) == KeyOf(logs[i]) {
      j := NewestOfKey(logs, k);
    }
  }

  lemma SeparateChannelsAgree(table: seq<Log>, user: nat, since: int, channels: set<string>)
    requires Separate(channels) && Spelled(table, channels)
    ensures AgreesWithLookup(table, user, since)
  {
    hide Scanned, KeyOf, Open, TrimSpace;
    var logs := Scanned(table, user, since);
    OpenActions(table, logs, |logs|);
    ScannedAreTheNewest(table, user, since);
    forall f | f in logs && !Recovered(table, f)
      ensures Reports(Open(table, logs, |logs|), KeyOf(f))
    {
      var i :| 0 <= i < |logs| && logs[i] == f;
      var j := NewestOfKey(logs, i);
      var newest := logs[j];
      SameKeySameChannel(newest, f, channels);
      assert newest.sentAt >= f.sentAt;
      assert !Recovered(table, newest);
      assert Action(KeyOf(newest), newest) in Open(table, logs, |logs|);
    }
  }

  lemma SameKeySameChannel(f: Log, g: Log, channels: set<string>)
    requires Separate(channels) && f.channel in channels && g.channel in channels && KeyOf(f) == KeyOf(g)
    ensures f.subscription == g.subscription && f.channel == g.channel
  {
    ActionKeyIdentifies(f.subscription, g.subscription, f.channel, g.channel);
  }

  lemma ScanOfThree(older: Log, newer: Log, sent: Log)
    requires !older.delivered && !newer.delivered && sent.delivered && 0 <= older.sentAt < newer.sentAt
             && older.user == newer.user
    ensures Scanned([older, newer, sent], older.user, 0) == [newer, older]
  {
    assert [older, newer, sent][1..] == [newer, sent] && [newer, sent][1..] == [sent] && [sent][1..] == [];
    assert Select([sent], older.user, false, 0) == [];
    assert Select([newer, sent], older.user, false, 0) == [newer];
    assert Select([older, newer, sent], older.user, false, 0) == [older, newer];
    assert [older, newer][1..] == [newer] && [newer][1..] == [];
    assert OrderBySentAtDesc([]) == [] && Insert(newer, []) == [newer];
    assert OrderBySentAtDesc([newer]) == [newer];
    assert Insert(older, []) == [older] && Insert(older, [newer]) == [newer, older];
    assert OrderBySentAtDesc([older, newer]) == [newer, older];
  }

  /** Otherwise a recovered failure under one spelling hides an unrecovered one under the other. */
  lemma CollidingChannelsDisagree(a: string, b: string, user: nat, subscription: nat) returns (table: seq<Log>)
    requires a != b && TrimSpace(a) == TrimSpace(b)
    ensures Spelled(table, {a, b}) && !AgreesWithLookup(table, user, 0)
  {
    var older := Log(1, user, subscription, a, false, 0);
    var newer := Log(2, user, subscription, b, false, 1);
    var sent := Log(3, user, subscription, b, true, 2);
    table := [older, newer, sent];
    hide TrimSpace, ActionKey, Scanned, Open;
    ActionKeyIdentifies(subscription, subscription, a, b);
    ScanOfThree(older, newer, sent);
    var logs := Scanned(table, user, 0);
    assert sent in table && Recovered(table, newer) && !Recovered(table, older);
    OpenActions(table, logs, 2);
    var open := Open(table, logs, 2);
    assert older in logs && KeyOf(older) == KeyOf(newer);
    assert KeyOf(logs[0]) == KeyOf(logs[1]) && !IsNewestOfItsKey(logs, 1);
    assert NeedsReport(table, logs, KeyOf(older)) && !Reports(open, KeyOf(older));
  }

  // ---- the channel types there are ----

  /** Channels are stored with their type in lower case and trimmed, and only if it is one of these. */
  const CHANNEL_TYPES := {"smtp", "resend", "telegram", "webhook", "gotify", "ntfy", "bark", "serverchan", "feishu",
                          "wecom", "dingtalk", "pushdeer", "pushplus", "pushover", "napcat"}

  lemma TrimmedAtBothEnds(s: string)
    requires s != "" && !IsSpace(s[0]) && !IsSpace(s[|s| - 1])
    ensures TrimSpace(s) == s
  {
  }

  lemma KnownTypesAreSeparate()
    ensures Separate(CHANNEL_TYPES)
  {
    hide TrimSpace;
    forall c | c in CHANNEL_TYPES ensures TrimSpace(c) == c {
      TrimmedAtBothEnds(c);
    }
  }

  /** On every log the one pass reports exactly the keys of the scanned failures that a lookup finds unrecovered. */
  lemma OnePassEqualsTheLookups(table: seq<Log>, user: nat, since: int)
    requires Spelled(table, CHANNEL_TYPES)
    ensures AgreesWithLookup(table, user, since)
  {
    KnownTypesAreSeparate();
    SeparateChannelsAgree(table, user, since, CHANNEL_TYPES);
  }

  /** The one pass gives the same keys as the lookups on every log exactly for separate spellings. */
  lemma OnePassAgreesExactlyForSeparateChannels(channels: set<string>)
    ensures (forall table, user, since | Spelled(table, channels) :: AgreesWithLookup(table, user, since))
            <==> Separate(channels)
  {
    hide AgreesWithLookup, TrimSpace;
    if Separate(channels) {
      forall table, user, since | Spelled(table, channels) ensures AgreesWithLookup(table, user, since) {
        SeparateChannelsAgree(table, user, since, channels);
      }
    } else {
      var a, b :| a in channels && b in channels && TrimSpace(a) == TrimSpace(b) && a != b;
      var table := CollidingChannelsDisagree(a, b, 0, 0);
    }
  }

  // ---- which actions are shown ----

  /** Of the open actions, those of active subscriptions are shown, and no others. */
  lemma {:induction false} ShownExactly(actions: seq<Action>, active: set<nat>)
    ensures forall a :: a in ActiveOnly(actions, active) <==> a in actions && a.log.subscription in active
    ensures |ActiveOnly(actions, active)| <= |actions|
  {
    if actions != [] {
      var n := |actions| - 1;
      ShownExactly(actions[..n], active);
      assert actions == actions[..n] + [actions[n]];
    }
  }

  /** In the order of the scan, and hiding an inactive subscription hides nothing else. */
  lemma {:induction false} ShownInOrder(a: seq<Action>, b: seq<Action>, active: set<nat>)
    ensures ActiveOnly(a + b, active) == ActiveOnly(a, active) + ActiveOnly(b, active)
    decreases |b|
  {
    if b == [] {
      assert a + b == a;
    } else {
      var n := |b| - 1;
      assert (a + b)[..|a| + n] == a + b[..n];
      ShownInOrder(a, b[..n], active);
    }
  }

  /** A delivery on the same subscription and channel, after the failure. */
  predicate LaterDelivery(s: Log, f: Log) {
    && s.delivered && (s.user, s.subscription, s.channel) == (f.user, f.subscription, f.channel) && f.sentAt < s.sentAt
  }

  lemma KeysBefore(logs: seq<Log>, i: nat)
    requires i < |logs|
    ensures IsNewestOfItsKey(logs, i)
            <==> forall j | 0 <= j < i :: ActionKey(logs[j].subscription, logs[j].channel) != KeyOf(logs[i])
  {
    hide ActionKey;
    assert forall j | 0 <= j < |logs| :: KeyOf(logs[j]) == ActionKey(logs[j].subscription, logs[j].channel);
  }

  /**
   * End to end, for the channel types there are: an action is shown for a key exactly if its
   * subscription is active and the newest scanned failure of the key has no later delivery on the
   * same subscription and channel.
   */
  lemma ActionsExactly(table: seq<Log>, user: nat, since: int, active: set<nat>, a: Action)
    ensures var logs := Scanned(table, user, since);
            a in ActiveOnly(Open(table, logs, |logs|), active)
            <==> a.log.subscription in active
                 && exists i :: 0 <= i < |logs| && a == Action(KeyOf(logs[i]), logs[i])
                                && (forall j | 0 <= j < i :: ActionKey(logs[j].subscription, logs[j].channel) != a.key)
                                && !(exists s | s in table :: LaterDelivery(s, logs[i]))
  {
    forall f ensures Recovered(table, f) <==> exists s | s in table :: LaterDelivery(s, f) {
      if Recovered(table, f) {
        var s :| s in table && s.delivered && s.user == f.user && s.subscription == f.subscription
                 && s.channel == f.channel && s.sentAt > f.sentAt;
        assert LaterDelivery(s, f);
      }
    }
    forall i | 0 <= i < |Scanned(table, user, since)|
      ensures IsNewestOfItsKey(Scanned(table, user, since), i)
              <==> forall j | 0 <= j < i ::
                     ActionKey(Scanned(table, user, since)[j].subscription, Scanned(table, user, since)[j].channel)
                     != KeyOf(Scanned(table, user, since)[i])
    {
      KeysBefore(Scanned(table, user, since), i);
    }
    hide Scanned, KeyOf, Recovered, IsNewestOfItsKey, Open, ActiveOnly, LaterDelivery, ActionKey;
    var logs := Scanned(table, user, since);
    OpenActions(table, logs, |logs|);
    ShownExactly(Open(table, logs, |logs|), active);
  }
}
