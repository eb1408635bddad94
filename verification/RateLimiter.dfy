/** The fixed-window limiter, its periodic purge, and how many calls it lets through. */
module RateLimiter {
  datatype Entry = Entry(count: nat, windowStart: int, lastSeen: int)

  type Entries = map<string, Entry>

  datatype Settings = Settings(limit: int, window: int)

  datatype State = State(entries: Entries, ops: nat)

  datatype Call = Call(key: string, now: int)

  const PURGE_EVERY := 200

  /** One call on one key: the key's new entry, and whether the call is let through. */
  function Visit(cfg: Settings, entries: Entries, key: string, now: int): (Entry, bool) {
    if key !in entries || now - entries[key].windowStart >= cfg.window then (Entry(1, now, now), true)
    else
      var e := entries[key];
      if e.count >= cfg.limit then (e.(lastSeen := now), false) else (Entry(e.count + 1, e.windowStart, now), true)
  }

  predicate Abandoned(cfg: Settings, e: Entry, now: int) {
    e.lastSeen < now - 3 * cfg.window
  }

  function Purge(cfg: Settings, entries: Entries, now: int): Entries {
    map k | k in entries && !Abandoned(cfg, entries[k], now) :: entries[k]
  }

  function AfterAllow(cfg: Settings, s: State, c: Call): (State, bool) {
    if c.key == "" then (s, true)
    else
      var (e, ok) := Visit(cfg, s.entries, c.key, c.now);
      var entries := s.entries[c.key := e];
      (State(if (s.ops + 1) % PURGE_EVERY == 0 then Purge(cfg, entries, c.now) else entries, s.ops + 1), ok)
  }

  class FixedWindowLimiter {
    const limit: int
    const window: int
    var entries: Entries
    var ops: nat

    constructor (limit: int, window: int)
      ensures this.limit == limit && this.window == window && entries == map[] && ops == 0
    {
      this.limit, this.window := limit, window;
      entries, ops := map[], 0;
    }

    ghost function Current(): State
      reads this
    {
      State(entries, ops)
    }

    method Allow(key: string, now: int) returns (ok: bool)
      modifies this
      ensures (Current(), ok) == AfterAllow(Settings(limit, window), old(Current()), Call(key, now))
    {
      if key == "" {
        return true;
      }
      if key !in entries || now - entries[key].windowStart >= window {
        entries := entries[key := Entry(1, now, now)];
        MaybeCleanup(now);
        return true;
      }
      var entry := entries[key];
      if entry.count >= limit {
        entries := entries[key := entry.(lastSeen := now)];
        MaybeCleanup(now);
        return false;
      }
      entries := entries[key := entry.(count := entry.count + 1, lastSeen := now)];
      MaybeCleanup(now);
      return true;
    }

    method MaybeCleanup(now: int)
      modifies this
      ensures ops == old(ops) + 1
      ensures entries == if ops % PURGE_EVERY == 0 then Purge(Settings(limit, window), old(entries), now)
                         else old(entries)
    {
      ops := ops + 1;
      if ops % PURGE_EVERY != 0 {
        return;
      }
      ghost var before := entries;
      var expireBefore := now - 3 * window;
      var left := entries.Keys;
      while left != {}
        invariant ops == old(ops) + 1 && left <= before.Keys && left <= entries.Keys
        invariant entries.Keys
               == set k | k in before && (k in left || !Abandoned(Settings(limit, window), before[k], now))
        invariant forall k | k in entries :: entries[k] == before[k]
        decreases |left|
      {
        var key :| key in left;
        left := left - {key};
        if entries[key].lastSeen < expireBefore {
          entries := entries - {key};
        }
      }
      assert entries == Purge(Settings(limit, window), before, now);
    }
  }

  // ---- a limiter that never forgets ----

  function AfterAllowUnpurged(cfg: Settings, entries: Entries, c: Call): (Entries, bool) {
    if c.key == "" then (entries, true)
    else var (e, ok) := Visit(cfg, entries, c.key, c.now); (entries[c.key := e], ok)
  }

  function Run(cfg: Settings, s: State, calls: seq<Call>): State
    decreases |calls|
  {
    if calls == [] then s else Run(cfg, AfterAllow(cfg, s, calls[0]).0, calls[1..])
  }

  function Decisions(cfg: Settings, s: State, calls: seq<Call>): seq<bool>
    decreases |calls|
  {
    if calls == [] then []
    else var (s', ok) := AfterAllow(cfg, s, calls[0]); [ok] + Decisions(cfg, s', calls[1..])
  }

  function DecisionsUnpurged(cfg: Settings, entries: Entries, calls: seq<Call>): seq<bool>
    decreases |calls|
  {
    if calls == [] then []
    else
      var (entries', ok) := AfterAllowUnpurged(cfg, entries, calls[0]);
      [ok] + DecisionsUnpurged(cfg, entries', calls[1..])
  }

  predicate InClockOrder(calls: seq<Call>, clock: int)
    decreases |calls|
  {
    calls == [] || (clock <= calls[0].now && InClockOrder(calls[1..], calls[0].now))
  }

  /** What was purged could only have started a new window anyway. */
  ghost predicate Covers(cfg: Settings, entries: Entries, full: Entries, clock: int) {
    && (forall k | k in entries :: k in full && entries[k] == full[k])
    && (forall k | k in full :: full[k].windowStart <= full[k].lastSeen <= clock)
    && (forall k | k in full && k !in entries :: clock - full[k].windowStart >= cfg.window)
  }

  lemma AllowKeepsCover(cfg: Settings, s: State, full: Entries, clock: int, c: Call)
    requires Covers(cfg, s.entries, full, clock) && clock <= c.now
    ensures AfterAllow(cfg, s, c).1 == AfterAllowUnpurged(cfg, full, c).1
    ensures Covers(cfg, AfterAllow(cfg, s, c).0.entries, AfterAllowUnpurged(cfg, full, c).0, c.now)
  {
  }

  /** The purge never changes a decision. */
  lemma {:induction false} PurgeIsInvisible(cfg: Settings, s: State, full: Entries, clock: int, calls: seq<Call>)
    requires Covers(cfg, s.entries, full, clock) && InClockOrder(calls, clock)
    ensures Decisions(cfg, s, calls) == DecisionsUnpurged(cfg, full, calls)
    decreases |calls|
  {
    if calls != [] {
      AllowKeepsCover(cfg, s, full, clock, calls[0]);
      PurgeIsInvisible(cfg, AfterAllow(cfg, s, calls[0]).0, AfterAllowUnpurged(cfg, full, calls[0]).0, calls[0].now,
                       calls[1..]);
    }
  }

  // ---- how many calls get through ----

  function AdmittedOf(key: string, calls: seq<Call>, decisions: seq<bool>): nat
    requires |calls| == |decisions|
  {
    if calls == [] then 0
    else (if calls[0].key == key && decisions[0] then 1 else 0) + AdmittedOf(key, calls[1..], decisions[1..])
  }

  lemma {:induction false} DecisionCount(cfg: Settings, entries: Entries, calls: seq<Call>)
    ensures |DecisionsUnpurged(cfg, entries, calls)| == |calls|
    decreases |calls|
  {
    if calls != [] {
      DecisionCount(cfg, AfterAllowUnpurged(cfg, entries, calls[0]).0, calls[1..]);
    }
  }

  function Admitted(cfg: Settings, entries: Entries, key: string, calls: seq<Call>): nat {
    DecisionCount(cfg, entries, calls);
    AdmittedOf(key, calls, DecisionsUnpurged(cfg, entries, calls))
  }

  function Room(cfg: Settings, count: nat): nat {
    if count < cfg.limit then cfg.limit - count else 0
  }

  /** A window lets at least its opening call through. */
  function PerWindow(cfg: Settings): nat {
    if cfg.limit < 1 then 1 else cfg.limit
  }

  lemma AdmittedStep(cfg: Settings, entries: Entries, key: string, calls: seq<Call>)
    requires calls != []
    ensures var (entries', ok) := AfterAllowUnpurged(cfg, entries, calls[0]);
            && Admitted(cfg, entries, key, calls)
               == (if calls[0].key == key && ok then 1 else 0) + Admitted(cfg, entries', key, calls[1..])
            && (calls[0].key != key && key in entries ==> key in entries' && entries'[key] == entries[key])
            && (calls[0].key != key && key !in entries ==> key !in entries')
  {
  }

  ghost predicate AllBefore(calls: seq<Call>, end: int) {
    forall i | 0 <= i < |calls| :: calls[i].now < end
  }

  lemma {:induction false} WithinOneWindow(cfg: Settings, entries: Entries, key: string, calls: seq<Call>)
    requires key != "" && key in entries && AllBefore(calls, entries[key].windowStart + cfg.window)
    ensures Admitted(cfg, entries, key, calls) <= Room(cfg, entries[key].count)
    decreases |calls|
  {
    if calls != [] {
      AdmittedStep(cfg, entries, key, calls);
      WithinOneWindow(cfg, AfterAllowUnpurged(cfg, entries, calls[0]).0, key, calls[1..]);
    }
  }

  lemma {:induction false} WithinTwoWindows(cfg: Settings, entries: Entries, key: string, calls: seq<Call>, clock: int,
                                            end: int)
    requires key != "" && key in entries && InClockOrder(calls, clock)
    requires AllBefore(calls, end) && end <= entries[key].windowStart + 2 * cfg.window
    ensures Admitted(cfg, entries, key, calls) <= Room(cfg, entries[key].count) + PerWindow(cfg)
    decreases |calls|
  {
    if calls != [] {
      AdmittedStep(cfg, entries, key, calls);
      var entries' := AfterAllowUnpurged(cfg, entries, calls[0]).0;
      if calls[0].key == key && calls[0].now - entries[key].windowStart >= cfg.window {
        WithinOneWindow(cfg, entries', key, calls[1..]);
      } else {
        WithinTwoWindows(cfg, entries', key, calls[1..], calls[0].now, end);
      }
    }
  }

  lemma {:induction false} WithinAWindowLength(cfg: Settings, entries: Entries, key: string, calls: seq<Call>,
                                               clock: int, from: int)
    requires key != "" && cfg.window > 0 && from <= clock && InClockOrder(calls, clock)
             && AllBefore(calls, from + cfg.window + 1)
    ensures Admitted(cfg, entries, key, calls) <= 2 * PerWindow(cfg)
    decreases |calls|
  {
    if calls != [] {
      AdmittedStep(cfg, entries, key, calls);
      var entries' := AfterAllowUnpurged(cfg, entries, calls[0]).0;
      if calls[0].key != key {
        WithinAWindowLength(cfg, entries', key, calls[1..], calls[0].now, from);
      } else if key !in entries || calls[0].now - entries[key].windowStart >= cfg.window {
        WithinTwoWindows(cfg, entries', key, calls[1..], calls[0].now, from + cfg.window + 1);
      } else {
        WithinTwoWindows(cfg, entries, key, calls, clock, from + cfg.window + 1);
      }
    }
  }

  lemma {:induction false} RunKeepsCover(cfg: Settings, s: State, full: Entries, clock: int, calls: seq<Call>)
    returns (full': Entries, clock': int)
    requires Covers(cfg, s.entries, full, clock) && InClockOrder(calls, clock)
    ensures Covers(cfg, Run(cfg, s, calls).entries, full', clock')
    ensures clock' == if calls == [] then clock else calls[|calls| - 1].now
    decreases |calls|
  {
    if calls == [] {
      full', clock' := full, clock;
    } else {
      AllowKeepsCover(cfg, s, full, clock, calls[0]);
      full', clock' := RunKeepsCover(cfg, AfterAllow(cfg, s, calls[0]).0, AfterAllowUnpurged(cfg, full, calls[0]).0,
                                     calls[0].now, calls[1..]);
    }
  }

  /**
   * The purging limiter, after any history: over any stretch of calls no longer than one window,
   * a key is let through at most twice the limit (twice one, if the limit is below one).
   */
  lemma AtMostTwiceTheLimit(cfg: Settings, history: seq<Call>, stretch: seq<Call>, key: string, start: int)
    requires key != "" && cfg.window > 0 && stretch != []
    requires InClockOrder(history, start)
             && InClockOrder(stretch, if history == [] then start else history[|history| - 1].now)
    requires forall i | 0 <= i < |stretch| :: stretch[i].now - stretch[0].now <= cfg.window
    ensures var d := Decisions(cfg, Run(cfg, State(map[], 0), history), stretch);
            |d| == |stretch| && AdmittedOf(key, stretch, d) <= 2 * PerWindow(cfg)
  {
    var s := Run(cfg, State(map[], 0), history);
    var full, clock := RunKeepsCover(cfg, State(map[], 0), map[], start, history);
    PurgeIsInvisible(cfg, s, full, clock, stretch);
    DecisionCount(cfg, full, stretch);
    assert InClockOrder(stretch, stretch[0].now);
    WithinAWindowLength(cfg, full, key, stretch, stretch[0].now, stretch[0].now);
  }

  // ---- the bound is reached ----

  function Burst(key: string, now: int, n: nat): seq<Call> {
    seq(n, _ => Call(key, now))
  }

  lemma {:induction false} BurstFillsTheWindow(cfg: Settings, entries: Entries, key: string, now: int, n: nat,
                                               rest: seq<Call>)
    requires key != "" && key in entries && now - entries[key].windowStart < cfg.window
             && entries[key].count + n <= cfg.limit
    ensures Admitted(cfg, entries, key, Burst(key, now, n) + rest)
            == var e := entries[key];
               n + Admitted(cfg, entries[key := Entry(e.count + n, e.windowStart, if n == 0 then e.lastSeen else now)],
                            key, rest)
    decreases n
  {
    var calls := Burst(key, now, n) + rest;
    if n == 0 {
      assert calls == rest;
      assert entries[key := entries[key]] == entries;
    } else {
      assert calls[1..] == Burst(key, now, n - 1) + rest;
      AdmittedStep(cfg, entries, key, calls);
      var entries' := AfterAllowUnpurged(cfg, entries, calls[0]).0;
      BurstFillsTheWindow(cfg, entries', key, now, n - 1, rest);
      var e := entries[key];
      assert entries'[key := Entry(e.count + n, e.windowStart, now)]
             == entries[key := Entry(e.count + n, e.windowStart, now)];
    }
  }

  /** A call for a key that is new, or whose window is over, is let through and opens a window. */
  lemma OpeningCall(cfg: Settings, entries: Entries, key: string, now: int, rest: seq<Call>)
    requires key != "" && cfg.limit >= 1 && (key in entries ==> now - entries[key].windowStart >= cfg.window)
    ensures Admitted(cfg, entries, key, [Call(key, now)] + rest)
            == 1 + Admitted(cfg, entries[key := Entry(1, now, now)], key, rest)
  {
  }

  /** Opening a window, filling it at its end and filling the next one at once uses twice the limit. */
  lemma TwiceTheLimitIsReached(cfg: Settings, key: string)
    requires key != "" && cfg.window > 0 && cfg.limit >= 1
    ensures var calls := [Call(key, 0)]
                         + (Burst(key, cfg.window - 1, cfg.limit - 1)
                            + ([Call(key, cfg.window)] + (Burst(key, cfg.window, cfg.limit - 1) + [])));
            && (forall i | 0 <= i < |calls| :: 0 <= calls[i].now <= cfg.window)
            && Admitted(cfg, map[], key, calls) == 2 * cfg.limit
  {
    hide AfterAllowUnpurged;
    var w, n := cfg.window, cfg.limit - 1;
    var tail := Burst(key, w, n) + [];
    var second := [Call(key, w)] + tail;
    var e1 := map[key := Entry(1, 0, 0)];
    OpeningCall(cfg, map[], key, 0, Burst(key, w - 1, n) + second);
    assert map[][key := Entry(1, 0, 0)] == e1;
    BurstFillsTheWindow(cfg, e1, key, w - 1, n, second);
    var e2 := e1[key := Entry(1 + n, 0, if n == 0 then 0 else w - 1)];
    OpeningCall(cfg, e2, key, w, tail);
    BurstFillsTheWindow(cfg, e2[key := Entry(1, w, w)], key, w, n, []);
  }

  // ---- exactly which calls get through ----

  /** When the key was called, in order. */
  function TimesOf(key: string, calls: seq<Call>): seq<int> {
    if calls == [] then []
    else
      var last := calls[|calls| - 1];
      TimesOf(key, calls[..|calls| - 1]) + if last.key == key then [last.now] else []
  }

  /**
   * The call that opened the window of call i: the first call opens one, and so does each call a
   * window length or more after the last opening.
   */
  function Opener(window: int, times: seq<int>, i: nat): (o: nat)
    requires i < |times|
    ensures o <= i
  {
    if i == 0 then 0
    else
      var o := Opener(window, times, i - 1);
      if times[i] - times[o] >= window then i else o
  }

  /** Of each window the first limit calls are let through, its opening call in any case. */
  predicate AmongTheFirst(cfg: Settings, times: seq<int>) {
    times != [] ==>
      var i := |times| - 1;
      var o := Opener(cfg.window, times, i);
      i == o || i - o < cfg.limit
  }

  predicate LastIsLetThrough(cfg: Settings, calls: seq<Call>)
    requires calls != []
  {
    var c := calls[|calls| - 1];
    c.key == "" || AmongTheFirst(cfg, TimesOf(c.key, calls))
  }

  /** The entry of a key sums up when it was called. */
  ghost predicate Tracks(cfg: Settings, entries: Entries, calls: seq<Call>) {
    forall key | key != "" :: TracksKey(cfg, entries, TimesOf(key, calls), key)
  }

  ghost predicate TracksKey(cfg: Settings, entries: Entries, times: seq<int>, key: string) {
    && (key in entries <==> times != [])
    && (times != [] ==>
          var i := |times| - 1;
          var o := Opener(cfg.window, times, i);
          && entries[key].windowStart == times[o]
          && entries[key].count == if i - o + 1 <= PerWindow(cfg) then i - o + 1 else PerWindow(cfg))
  }

  lemma {:induction false} OpenerOfPrefix(window: int, times: seq<int>, t: int, i: nat)
    requires i < |times|
    ensures Opener(window, times + [t], i) == Opener(window, times, i)
  {
    if i > 0 { OpenerOfPrefix(window, times, t, i - 1); }
  }

  lemma VisitTracks(cfg: Settings, entries: Entries, times: seq<int>, key: string, now: int)
    requires TracksKey(cfg, entries, times, key) && cfg.window > 0
    ensures var (e, ok) := Visit(cfg, entries, key, now);
            && (ok <==> AmongTheFirst(cfg, times + [now]))
            && TracksKey(cfg, entries[key := e], times + [now], key)
  {
    var n := |times|;
    if n > 0 { OpenerOfPrefix(cfg.window, times, now, n - 1); }
    assert (times + [now])[n] == now;
  }

  lemma AllowTracks(cfg: Settings, entries: Entries, calls: seq<Call>, c: Call)
    requires Tracks(cfg, entries, calls) && cfg.window > 0
    ensures var (entries', ok) := AfterAllowUnpurged(cfg, entries, c);
            (ok <==> LastIsLetThrough(cfg, calls + [c])) && Tracks(cfg, entries', calls + [c])
  {
    hide TracksKey, Visit, AmongTheFirst;
    var calls' := calls + [c];
    assert calls'[..|calls|] == calls && calls'[|calls|] == c;
    var entries' := AfterAllowUnpurged(cfg, entries, c).0;
    if c.key != "" { VisitTracks(cfg, entries, TimesOf(c.key, calls), c.key, c.now); }
    forall key | key != "" ensures TracksKey(cfg, entries', TimesOf(key, calls'), key) {
      if key != c.key {
        assert TimesOf(key, calls') == TimesOf(key, calls);
        OtherKeyTracks(cfg, entries, entries', TimesOf(key, calls), key);
      }
    }
  }

  lemma OtherKeyTracks(cfg: Settings, entries: Entries, entries': Entries, times: seq<int>, key: string)
    requires TracksKey(cfg, entries, times, key)
    requires (key in entries <==> key in entries') && (key in entries ==> entries'[key] == entries[key])
    ensures TracksKey(cfg, entries', times, key)
  {
  }

  lemma {:induction false} DecisionsTrack(cfg: Settings, entries: Entries, before: seq<Call>, calls: seq<Call>, i: nat)
    requires Tracks(cfg, entries, before) && cfg.window > 0 && i < |calls|
    ensures |DecisionsUnpurged(cfg, entries, calls)| == |calls|
    ensures DecisionsUnpurged(cfg, entries, calls)[i] <==> LastIsLetThrough(cfg, before + calls[..i + 1])
    decreases |calls|
  {
    hide Tracks, AfterAllowUnpurged, LastIsLetThrough;
    DecisionCount(cfg, entries, calls);
    AllowTracks(cfg, entries, before, calls[0]);
    if i == 0 {
      assert calls[..1] == [calls[0]];
    } else {
      DecisionsTrack(cfg, AfterAllowUnpurged(cfg, entries, calls[0]).0, before + [calls[0]], calls[1..], i - 1);
      assert before + [calls[0]] + calls[1..][..i] == before + calls[..i + 1];
    }
  }

  /**
   * The limiter with its purges, from the start, for calls in clock order: a call is let through
   * exactly if it has no key or is among the first of its key's window, wherever windows begin.
   */
  lemma WindowsDecideExactly(cfg: Settings, calls: seq<Call>, i: nat)
    requires cfg.window > 0 && i < |calls| && InClockOrder(calls, calls[0].now)
    ensures |Decisions(cfg, State(map[], 0), calls)| == |calls|
    ensures Decisions(cfg, State(map[], 0), calls)[i] <==> LastIsLetThrough(cfg, calls[..i + 1])
  {
    PurgeIsInvisible(cfg, State(map[], 0), map[], calls[0].now, calls);
    DecisionsTrack(cfg, map[], [], calls, i);
    assert [] + calls[..i + 1] == calls[..i + 1];
  }

  /** The purge removes exactly the entries not called for more than three window lengths. */
  lemma PurgeExactly(cfg: Settings, entries: Entries, now: int, key: string)
    ensures key in Purge(cfg, entries, now) <==> key in entries && !(now - entries[key].lastSeen > 3 * cfg.window)
    ensures key in Purge(cfg, entries, now) ==> Purge(cfg, entries, now)[key] == entries[key]
  {
  }

  /** Every call with a key notes the time it came, let through or not. */
  lemma EveryCallIsSeen(cfg: Settings, s: State, c: Call)
    requires c.key != "" && cfg.window > 0
    ensures var s' := AfterAllow(cfg, s, c).0;
            && s'.ops == s.ops + 1 && c.key in s'.entries && s'.entries[c.key].lastSeen == c.now
            && (forall k | k in s'.entries && k != c.key :: k in s.entries && s'.entries[k] == s.entries[k])
            && (s'.ops % 200 != 0 ==> s'.entries.Keys == s.entries.Keys + {c.key})
  {
  }
}
