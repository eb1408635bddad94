/**
 * The capped single-use stores kept in memory: re-authentication tickets, passkey sessions and
 * the two OIDC session stores share this shape and differ in their payload and cap.
 */
module SingleUseStore {
  import opened Basics
  import opened Text

  const MAX_REAUTH_TICKETS: nat := 1024
  const REAUTH_TICKET_TTL := 300

  datatype Entry<P> = Entry(payload: P, createdAt: int, expiresAt: int)

  type Entries<P> = map<string, Entry<P>>

  function Cleanup<P>(entries: Entries<P>, now: int): Entries<P> {
    map k | k in entries && now <= entries[k].expiresAt :: entries[k]
  }

  /** Oldest-first eviction down to room for one more; among equal ages any may go. */
  ghost predicate MakesRoom<P>(entries: Entries<P>, left: Entries<P>, limit: nat) {
    && (forall k | k in left :: k in entries && left[k] == entries[k])
    && (if |entries| < limit then left == entries else |left| == limit - 1)
    && (forall gone, kept | gone in entries && gone !in left && kept in left ::
        entries[gone].createdAt <= entries[kept].createdAt)
  }

  method CleanupExpired<P>(entries: Entries<P>, now: int) returns (left: Entries<P>)
    ensures left == Cleanup(entries, now)
  {
    left := entries;
    var todo := entries.Keys;
    while todo != {}
      invariant todo <= entries.Keys && todo <= left.Keys
      invariant left.Keys == set k | k in entries && (k in todo || now <= entries[k].expiresAt)
      invariant forall k | k in left :: left[k] == entries[k]
      decreases |todo|
    {
      var k :| k in todo;
      todo := todo - {k};
      if now > left[k].expiresAt {
        left := left - {k};
      }
    }
    assert left == Cleanup(entries, now);
  }

  method FindOldest<P>(entries: Entries<P>) returns (oldest: string)
    requires entries != map[]
    ensures oldest in entries
    ensures forall k | k in entries :: entries[oldest].createdAt <= entries[k].createdAt
  {
    oldest :| oldest in entries;
    var todo := entries.Keys - {oldest};
    while todo != {}
      invariant todo <= entries.Keys && oldest in entries
      invariant forall k | k in entries && k !in todo :: entries[oldest].createdAt <= entries[k].createdAt
      decreases |todo|
    {
      var k :| k in todo;
      todo := todo - {k};
      if entries[k].createdAt < entries[oldest].createdAt {
        oldest := k;
      }
    }
  }

  method EnforceLimit<P>(entries: Entries<P>, limit: nat) returns (left: Entries<P>)
    requires limit > 0
    ensures MakesRoom(entries, left, limit)
  {
    left := entries;
    while |left| >= limit
      invariant forall k | k in left :: k in entries && left[k] == entries[k]
      invariant if |entries| < limit then left == entries else |left| >= limit - 1
      invariant forall gone, kept | gone in entries && gone !in left && kept in left ::
                  entries[gone].createdAt <= entries[kept].createdAt
      decreases |left|
    {
      var oldest := FindOldest(left);
      var smaller := left - {oldest};
      assert left.Keys == smaller.Keys + {oldest};
      assert |left.Keys| == |left| && |smaller.Keys| == |smaller|;
      left := smaller;
    }
  }

  /** What storing an entry may do to the table. */
  ghost predicate Stored<P(!new)>(entries: Entries<P>, entries': Entries<P>, token: string, e: Entry<P>, limit: nat,
                                  now: int)
  {
    exists room :: MakesRoom(Cleanup(entries, now), room, limit) && entries' == room[token := e]
  }

  function Taken<P>(entries: Entries<P>, token: string, now: int): (Entries<P>, Option<Entry<P>>) {
    var clean := Cleanup(entries, now);
    if token !in clean then (clean, None) else (clean - {token}, Some(clean[token]))
  }

  class Store<P(!new)> {
    const limit: nat
    var entries: Entries<P>

    constructor (limit: nat)
      ensures this.limit == limit && entries == map[]
    {
      this.limit, entries := limit, map[];
    }

    method Put(token: string, payload: P, createdAt: int, expiresAt: int, now: int)
      requires limit > 0
      modifies this
      ensures Stored(old(entries), entries, token, Entry(payload, createdAt, expiresAt), limit, now)
    {
      var clean := CleanupExpired(entries, now);
      var room := EnforceLimit(clean, limit);
      entries := room[token := Entry(payload, createdAt, expiresAt)];
    }

    method Take(token: string, now: int) returns (found: Option<Entry<P>>)
      modifies this
      ensures (entries, found) == Taken(old(entries), token, now)
    {
      var clean := CleanupExpired(entries, now);
      if token !in clean {
        entries := clean;
        return None;
      }
      entries := clean - {token};
      return Some(clean[token]);
    }
  }

  // ---- re-authentication tickets ----

  datatype Scope = Scope(userId: nat, operation: string)

  function ConsumeResult(entries: Entries<Scope>, userId: nat, operation: string, ticket: string, now: int)
    : (Entries<Scope>, bool)
  {
    var key := TrimSpace(ticket);
    if key == "" then (entries, false)
    else
      var (left, found) := Taken(entries, key, now);
      (left, found.Some? && found.value.payload == Scope(userId, operation) && now <= found.value.expiresAt)
  }

  class ReauthTickets {
    const store: Store<Scope>

    constructor ()
      ensures store.limit == 1024 && store.entries == map[] && fresh(store)
    {
      store := new Store<Scope>(MAX_REAUTH_TICKETS);
    }

    method MintTicket(ticket: string, userId: nat, operation: string, now: int)
      requires store.limit > 0
      modifies store
      ensures Stored(old(store.entries), store.entries, ticket,
                     Entry(Scope(userId, operation), now, now + 300), store.limit, now)
    {
      store.Put(ticket, Scope(userId, operation), now, now + REAUTH_TICKET_TTL, now);
    }

    /** A presented ticket is spent whether or not it fits the caller. */
    method Consume(userId: nat, operation: string, ticket: string, now: int) returns (ok: bool)
      modifies store
      ensures (store.entries, ok) == ConsumeResult(old(store.entries), userId, operation, ticket, now)
    {
      var key := TrimSpace(ticket);
      if key == "" {
        return false;
      }
      var found := store.Take(key, now);
      if found.None? {
        return false;
      }
      if found.value.payload != Scope(userId, operation) {
        return false;
      }
      return now <= found.value.expiresAt;
    }
  }

  // ---- whole runs ----

  datatype Event<P> =
    | PutEvent(token: string, payload: P, lifetime: int, now: int)
    | TakeEvent(token: string, now: int)

  ghost predicate Step<P(!new)>(entries: Entries<P>, entries': Entries<P>, e: Event<P>, limit: nat) {
    match e
    case PutEvent(token, payload, lifetime, now) =>
      Stored(entries, entries', token, Entry(payload, now, now + lifetime), limit, now)
    case TakeEvent(token, now) => entries' == Taken(entries, token, now).0
  }

  /** A run from the empty store, in clock order, with every stored token new. */
  ghost predicate Trace<P(!new)>(states: seq<Entries<P>>, events: seq<Event<P>>, limit: nat) {
    && limit > 0 && |states| == |events| + 1 && states[0] == map[]
    && (forall i | 0 <= i < |events| :: Step(states[i], states[i + 1], events[i], limit))
    && (forall i, j | 0 <= i < j < |events| :: events[i].now <= events[j].now)
    && (forall i, j | 0 <= i < j < |events| && events[i].PutEvent? && events[j].PutEvent? ::
        events[i].token != events[j].token)
  }

  /** Stores happen at different times, so the oldest entry is always the one stored first. */
  ghost predicate DistinctTimes<P>(events: seq<Event<P>>) {
    forall i, j | 0 <= i < j < |events| && events[i].PutEvent? && events[j].PutEvent? :: events[i].now < events[j].now
  }

  function EntryOf<P>(e: Event<P>): Entry<P>
    requires e.PutEvent?
  {
    Entry(e.payload, e.now, e.now + e.lifetime)
  }

  lemma {:induction false} CapHolds<P(!new)>(states: seq<Entries<P>>, events: seq<Event<P>>, limit: nat, n: nat)
    requires Trace(states, events, limit) && n <= |events|
    ensures |states[n]| <= limit
  {
    hide Step;
    if n > 0 {
      CapHolds(states, events, limit, n - 1);
      assert Step(states[n - 1], states[n - 1 + 1], events[n - 1], limit);
      StepKeepsCap(states[n - 1], states[n], events[n - 1], limit);
    }
  }

  lemma StepKeepsCap<P(!new)>(entries: Entries<P>, entries': Entries<P>, e: Event<P>, limit: nat)
    requires limit > 0 && |entries| <= limit && Step(entries, entries', e, limit)
    ensures |entries'| <= limit
  {
    hide Cleanup;
    SmallerCleanup(entries, e.now);
    var clean := Cleanup(entries, e.now);
    match e
    case PutEvent(token, payload, lifetime, now) =>
      var room :| MakesRoom(clean, room, limit) && entries' == room[token := Entry(payload, now, now + lifetime)];
      assert entries'.Keys == room.Keys + {token};
      assert |room.Keys| == |room| && |entries'.Keys| == |entries'|;
    case TakeEvent(token, now) =>
      SubsetSize(entries'.Keys, clean.Keys);
  }

  lemma SmallerCleanup<P>(entries: Entries<P>, now: int)
    ensures |Cleanup(entries, now)| <= |entries|
  {
    SubsetSize(Cleanup(entries, now).Keys, entries.Keys);
  }

  lemma {:induction false} SubsetSize<T>(a: set<T>, b: set<T>)
    requires a <= b
    ensures |a| <= |b|
  {
    if a != {} {
      var x :| x in a;
      SubsetSize(a - {x}, b - {x});
    }
  }

  /** Everything in the store was put there by an earlier event and not taken since. */
  lemma {:induction false} EntriesComeFromPuts<P(!new)>(states: seq<Entries<P>>, events: seq<Event<P>>, limit: nat,
                                                        n: nat, token: string)
      returns (i: nat)
    requires Trace(states, events, limit) && n <= |events| && token in states[n]
    ensures i < n && events[i].PutEvent? && events[i].token == token && states[n][token] == EntryOf(events[i])
    ensures forall j | i < j < n :: !(events[j].TakeEvent? && events[j].token == token)
  {
    assert n > 0;
    var e := events[n - 1];
    assert Step(states[n - 1], states[n], e, limit);
    if e.PutEvent? && e.token == token {
      i := n - 1;
    } else {
      i := EntriesComeFromPuts(states, events, limit, n - 1, token);
    }
  }

  /** The take at position t yields its entry. */
  ghost predicate Yields<P(!new)>(states: seq<Entries<P>>, events: seq<Event<P>>, t: nat, e: Entry<P>)
    requires t < |events| < |states|
  {
    events[t].TakeEvent? && Taken(states[t], events[t].token, events[t].now).1 == Some(e)
  }

  /**
   * A take yields only what one earlier put stored under that token, within its lifetime, and no
   * token is ever yielded twice in a run.
   */
  lemma TakenOnceInTime<P(!new)>(states: seq<Entries<P>>, events: seq<Event<P>>, limit: nat, t: nat, e: Entry<P>)
    requires Trace(states, events, limit) && t < |events| && Yields(states, events, t, e)
    ensures events[t].now <= e.expiresAt
    ensures exists i ::
              0 <= i < t && events[i].PutEvent? && events[i].token == events[t].token && e == EntryOf(events[i])
    ensures forall u, f | t < u < |events| && Yields(states, events, u, f) :: events[u].token != events[t].token
  {
    var i := EntriesComeFromPuts(states, events, limit, t, events[t].token);
    forall u, f | t < u < |events| && Yields(states, events, u, f) ensures events[u].token != events[t].token {
      if events[u].token == events[t].token {
        var j := EntriesComeFromPuts(states, events, limit, u, events[u].token);
        assert false;
      }
    }
  }

  /** A ticket authorises only the user and operation it was minted for, within its lifetime. */
  lemma ConsumeOnlyForItsScope(states: seq<Entries<Scope>>, events: seq<Event<Scope>>, limit: nat, n: nat,
                               userId: nat, operation: string, ticket: string, now: int)
    requires Trace(states, events, limit) && n <= |events|
    requires ConsumeResult(states[n], userId, operation, ticket, now).1
    ensures exists i :: 0 <= i < n && events[i].PutEvent? && events[i].token == TrimSpace(ticket)
                        && events[i].payload == Scope(userId, operation) && now <= events[i].now + events[i].lifetime
    ensures TrimSpace(ticket) !in ConsumeResult(states[n], userId, operation, ticket, now).0
  {
    var i := EntriesComeFromPuts(states, events, limit, n, TrimSpace(ticket));
  }

  // ---- survival ----

  function PutsBetween<P>(events: seq<Event<P>>, from: nat, to: nat): nat
    requires from <= to <= |events|
  {
    if from == to then 0 else PutsBetween(events, from, to - 1) + (if events[to - 1].PutEvent? then 1 else 0)
  }

  /** The keys of the store that were put after event i number at most the puts after it. */
  lemma {:induction false} LaterKeys<P(!new)>(states: seq<Entries<P>>, events: seq<Event<P>>, limit: nat, i: nat,
                                              n: nat, keys: set<string>)
    requires Trace(states, events, limit) && i < n <= |events|
    requires forall k | k in keys :: exists j :: i < j < n && events[j].PutEvent? && events[j].token == k
    ensures |keys| <= PutsBetween(events, i + 1, n)
  {
    if n == i + 1 {
      assert keys == {};
    } else {
      var rest := if events[n - 1].PutEvent? then keys - {events[n - 1].token} else keys;
      forall k | k in rest ensures exists j :: i < j < n - 1 && events[j].PutEvent? && events[j].token == k {
        var j :| i < j < n && events[j].PutEvent? && events[j].token == k;
      }
      LaterKeys(states, events, limit, i, n - 1, rest);
    }
  }

  /**
   * An entry that has neither expired nor been taken is still there after any limit - 1 later
   * puts: eviction always takes the entry stored first.
   */
  lemma {:induction false} Survives<P(!new)>(states: seq<Entries<P>>, events: seq<Event<P>>, limit: nat, i: nat, n: nat)
    requires Trace(states, events, limit) && DistinctTimes(events) && i < n <= |events|
    requires events[i].PutEvent? && events[n - 1].now <= events[i].now + events[i].lifetime
    requires forall j | i < j < n :: !(events[j].TakeEvent? && events[j].token == events[i].token)
    requires PutsBetween(events, i + 1, n) < limit
    ensures events[i].token in states[n] && states[n][events[i].token] == EntryOf(events[i])
  {
    hide Step, DistinctTimes;
    if n == i + 1 {
      PutStores(states, events, limit, i);
    } else {
      assert events[n - 2].now <= events[n - 1].now;
      Survives(states, events, limit, i, n - 1);
      if events[n - 1].PutEvent? {
        PutKeepsTheYoung(states, events, limit, i, n - 1);
      } else {
        TakeKeepsOthers(states, events, limit, i, n - 1);
      }
    }
  }

  lemma PutStores<P(!new)>(states: seq<Entries<P>>, events: seq<Event<P>>, limit: nat, i: nat)
    requires Trace(states, events, limit) && i < |events| && events[i].PutEvent?
    ensures events[i].token in states[i + 1] && states[i + 1][events[i].token] == EntryOf(events[i])
  {
  }

  lemma TakeKeepsOthers<P(!new)>(states: seq<Entries<P>>, events: seq<Event<P>>, limit: nat, i: nat, m: nat)
    requires Trace(states, events, limit) && i < m < |events|
    requires events[i].PutEvent? && events[m].TakeEvent? && events[m].now <= events[i].now + events[i].lifetime
    requires events[m].token != events[i].token
    requires events[i].token in states[m] && states[m][events[i].token] == EntryOf(events[i])
    ensures events[i].token in states[m + 1] && states[m + 1][events[i].token] == EntryOf(events[i])
  {
  }

  lemma PutKeepsTheYoung<P(!new)>(states: seq<Entries<P>>, events: seq<Event<P>>, limit: nat, i: nat, m: nat)
    requires Trace(states, events, limit) && DistinctTimes(events) && i < m < |events|
    requires events[i].PutEvent? && events[m].PutEvent? && events[m].now <= events[i].now + events[i].lifetime
    requires events[i].token in states[m] && states[m][events[i].token] == EntryOf(events[i])
    requires PutsBetween(events, i + 1, m + 1) < limit
    ensures events[i].token in states[m + 1] && states[m + 1][events[i].token] == EntryOf(events[i])
  {
    var token, e := events[i].token, events[m];
    assert Step(states[m], states[m + 1], e, limit);
    var clean := Cleanup(states[m], e.now);
    var room :| MakesRoom(clean, room, limit) && states[m + 1] == room[e.token := EntryOf(e)];
    assert |room.Keys| == |room|;
    if token !in room {
      forall k | k in room.Keys ensures exists j :: i < j < m && events[j].PutEvent? && events[j].token == k {
        assert clean[token].createdAt <= clean[k].createdAt;
        var j := EntriesComeFromPuts(states, events, limit, m, k);
      }
      LaterKeys(states, events, limit, i, m, room.Keys);
      assert false;
    }
  }

  // ---- a fresh ticket is accepted ----

  /** Presenting a token takes its entry out if it has not expired, and leaves every other unexpired one. */
  lemma TakeExactly<P>(entries: Entries<P>, token: string, now: int)
    ensures var (left, found) := Taken(entries, token, now);
            && (found.Some? <==> token in entries && !(now > entries[token].expiresAt))
            && (found.Some? ==> found.value == entries[token])
            && forall k :: k in left <==> k != token && k in entries && !(now > entries[k].expiresAt)
    ensures forall k | k in Taken(entries, token, now).0 :: Taken(entries, token, now).0[k] == entries[k]
  {
  }

  /**
   * A ticket is accepted exactly if it is still stored in time for this very user and operation;
   * whatever the answer, it is gone afterwards.
   */
  lemma ConsumeExactly(entries: Entries<Scope>, userId: nat, operation: string, ticket: string, now: int)
    ensures var (left, ok) := ConsumeResult(entries, userId, operation, ticket, now);
            var key := TrimSpace(ticket);
            && (ok <==> key != "" && key in entries && !(now > entries[key].expiresAt)
                        && entries[key].payload.userId == userId && entries[key].payload.operation == operation)
            && (key != "" ==> key !in left)
            && (key == "" ==> left == entries)
  {
    hide TrimSpace;
  }

  /**
   * In any run with distinct store times, a ticket is accepted from its own user for its own
   * operation within its lifetime, if it has not been presented before and fewer than limit
   * tickets were stored after it.
   */
  lemma FreshTicketIsAccepted(states: seq<Entries<Scope>>, events: seq<Event<Scope>>, limit: nat, i: nat,
                              ticket: string,
                              now: int)
    requires Trace(states, events, limit) && DistinctTimes(events) && i < |events| && events[i].PutEvent?
    requires forall j | i < j < |events| :: !(events[j].TakeEvent? && events[j].token == events[i].token)
    requires PutsBetween(events, i + 1, |events|) < limit
    requires events[|events| - 1].now <= now <= events[i].now + events[i].lifetime
    requires TrimSpace(ticket) == events[i].token && events[i].token != ""
    ensures var scope := events[i].payload;
            ConsumeResult(states[|events|], scope.userId, scope.operation, ticket, now).1
  {
    hide TrimSpace, Step, DistinctTimes;
    Survives(states, events, limit, i, |events|);
    ConsumeExactly(states[|events|], events[i].payload.userId, events[i].payload.operation, ticket, now);
  }

  /** Storing drops only expired and oldest entries, and unexpired ones only for want of room. */
  lemma PutExactly<P(!new)>(entries: Entries<P>, entries': Entries<P>, token: string, e: Entry<P>, limit: nat, now: int)
    requires limit > 0 && Stored(entries, entries', token, e, limit, now)
    ensures token in entries' && entries'[token] == e
    ensures forall k | k in entries' && k != token ::
              k in entries && entries'[k] == entries[k] && InTime(entries[k], now)
    ensures |Cleanup(entries, now)| < limit ==> forall k | k in entries && InTime(entries[k], now) :: k in entries'
    ensures forall gone, kept | gone in entries && InTime(entries[gone], now) && gone !in entries'
                                && kept in entries' && kept != token ::
              entries[gone].createdAt <= entries[kept].createdAt
  {
    CleanupExactly(entries, now);
    hide Cleanup, InTime;
    var clean := Cleanup(entries, now);
    var room :| MakesRoom(clean, room, limit) && entries' == room[token := e];
    RoomExactly(clean, room, limit);
    hide MakesRoom;
    assert forall k | k != token :: k in entries' <==> k in room;
  }

  predicate InTime<P>(e: Entry<P>, now: int) {
    !(now > e.expiresAt)
  }

  lemma RoomExactly<P>(clean: Entries<P>, room: Entries<P>, limit: nat)
    requires MakesRoom(clean, room, limit)
    ensures forall k | k in room :: k in clean && room[k] == clean[k]
    ensures |clean| < limit ==> room == clean
    ensures forall gone, kept | gone in clean && gone !in room && kept in room ::
              clean[gone].createdAt <= clean[kept].createdAt
  {
  }

  lemma CleanupExactly<P>(entries: Entries<P>, now: int)
    ensures forall k :: k in Cleanup(entries, now) <==> k in entries && InTime(entries[k], now)
    ensures forall k | k in Cleanup(entries, now) :: Cleanup(entries, now)[k] == entries[k]
  {
  }
}
