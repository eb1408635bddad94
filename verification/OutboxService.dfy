/** The notification service of one process, working on the outbox tables. */
module OutboxService {
  import opened Basics
  import opened Calendar
  import opened DedupeKeys
  import opened Outbox
  import opened Reminders
  import opened OutboxEffects

  // ---- the claim query ----

  /** ORDER BY next_attempt_at ASC, id ASC */
  predicate Before(rows: seq<Row>, i: nat, j: nat)
    requires i < |rows| && j < |rows|
  {
    rows[i].nextAttemptAt < rows[j].nextAttemptAt || (rows[i].nextAttemptAt == rows[j].nextAttemptAt && i < j)
  }

  /** ids are the first batch of the due rows: no due row is left out in favour of a later one. */
  ghost predicate FirstDue(rows: seq<Row>, now: int, batch: nat, ids: seq<nat>) {
    && |ids| <= batch
    && (forall k | 0 <= k < |ids| :: ids[k] < |rows| && Claimable(rows[ids[k]], now))
    && (forall k, l | 0 <= k < l < |ids| :: Before(rows, ids[k], ids[l]))
    && (forall j | 0 <= j < |rows| && Claimable(rows[j], now) && j !in ids ::
          |ids| == batch && forall k | 0 <= k < |ids| :: Before(rows, ids[k], j))
  }

  /** Row i was due earlier than row j, or at the same time with the lower id. */
  ghost predicate ComesFirst(rows: seq<Row>, i: nat, j: nat) {
    && i < |rows| && j < |rows| && rows[i].nextAttemptAt <= rows[j].nextAttemptAt
    && (rows[i].nextAttemptAt == rows[j].nextAttemptAt ==> i < j)
  }

  /** Exactly the rows named by ids were claimed. */
  ghost predicate ClaimedRows(rows: seq<Row>, rows': seq<Row>, ids: seq<nat>, owner: string, now: int) {
    && |rows'| == |rows|
    && forall i | 0 <= i < |rows| :: rows'[i] == if i in ids then ClaimRow(rows[i], owner, now) else rows[i]
  }

  ghost function HeldAmong(rows: seq<Row>, ids: seq<nat>, owner: string): set<nat> {
    set id | id in ids && id < |rows| && HeldBy(rows[id], owner)
  }

  /** Every held row among ids, once each if there are as many jobs, in id order. */
  ghost predicate JobsOf(rows: seq<Row>, ids: seq<nat>, owner: string, jobs: seq<Job>) {
    && (forall k | 0 <= k < |jobs| :: jobs[k].id in HeldAmong(rows, ids, owner) && jobs[k].row == rows[jobs[k].id])
    && (forall k, l | 0 <= k < l < |jobs| :: jobs[k].id < jobs[l].id)
  }

  method FindDue(rows: seq<Row>, now: int, batch: nat) returns (ids: seq<nat>)
    ensures FirstDue(rows, now, batch, ids)
  {
    ids := [];
    while |ids| < batch
      invariant |ids| <= batch
      invariant forall k | 0 <= k < |ids| :: ids[k] < |rows| && Claimable(rows[ids[k]], now)
      invariant forall k, l | 0 <= k < l < |ids| :: Before(rows, ids[k], ids[l])
      invariant forall j, k | 0 <= j < |rows| && Claimable(rows[j], now) && j !in ids && 0 <= k < |ids| ::
                  Before(rows, ids[k], j)
    {
      var best := FindFirst(rows, now, ids);
      if best == |rows| {
        return;
      }
      ids := ids + [best];
    }
  }

  method FindFirst(rows: seq<Row>, now: int, taken: seq<nat>) returns (best: nat)
    ensures best <= |rows|
    ensures best < |rows| ==> Claimable(rows[best], now) && best !in taken
    ensures forall j | 0 <= j < |rows| && Claimable(rows[j], now) && j !in taken && j != best ::
              best < |rows| && Before(rows, best, j)
  {
    best := |rows|;
    for i := 0 to |rows|
      invariant best < i || best == |rows|
      invariant best < |rows| ==> Claimable(rows[best], now) && best !in taken
      invariant forall j | 0 <= j < i && Claimable(rows[j], now) && j !in taken && j != best ::
                  best < |rows| && Before(rows, best, j)
    {
      if Claimable(rows[i], now) && i !in taken && (best == |rows| || Before(rows, i, best)) {
        best := i;
      }
    }
  }

  // ---- the scan, as one fold over its requests ----

  /**
   * One user's scan: what its queries returned, and its clock readings. counted gives the reading
   * from which the days left of each active subscription are counted.
   */
  datatype Scan = Scan(ended: seq<Subscription>, subs: seq<Subscription>, channels: seq<Channel>, policy: Policy,
                       today: int, counted: nat -> int)

  /** The three loops of a scan. */
  datatype Pass = EndedPass | EndingPass | BillingPass

  function Subs(pass: Pass, scan: Scan): seq<Subscription> {
    if pass == EndedPass then scan.ended else scan.subs
  }

  function RequestsFor(pass: Pass, sub: Subscription, channel: Channel, policy: Policy, at: Readings, loc: int)
    : seq<Request>
  {
    match pass
    case EndedPass => EndedRequests(sub, channel, loc)
    case EndingPass => EndingRequests(sub, channel, policy, at, loc)
    case BillingPass => BillingRequests(sub, channel, policy, at, loc)
  }

  function OnChannels(pass: Pass, scan: Scan, i: nat, m: nat, loc: int): seq<Request>
    requires i < |Subs(pass, scan)| && m <= |scan.channels|
  {
    if m == 0 then []
    else
      OnChannels(pass, scan, i, m - 1, loc)
      + RequestsFor(pass, Subs(pass, scan)[i], scan.channels[m - 1], scan.policy,
                    Readings(scan.today, scan.counted(i)), loc)
  }

  function UpTo(pass: Pass, scan: Scan, n: nat, loc: int): seq<Request>
    requires n <= |Subs(pass, scan)|
  {
    if n == 0 then [] else UpTo(pass, scan, n - 1, loc) + OnChannels(pass, scan, n - 1, |scan.channels|, loc)
  }

  function PassRequests(pass: Pass, scan: Scan, loc: int): seq<Request> {
    UpTo(pass, scan, |Subs(pass, scan)|, loc)
  }

  function ScanRequests(scan: Scan, loc: int): seq<Request> {
    PassRequests(EndedPass, scan, loc) + PassRequests(EndingPass, scan, loc) + PassRequests(BillingPass, scan, loc)
  }

  /**
   * The scan's surroundings: whether a message can be rendered, and for the k-th request the clock
   * reading of its insertion and whether the database fails.
   */
  datatype Surroundings = Surroundings(renders: Request -> bool, inserted: nat -> int, fails: nat -> bool)

  /** What becomes of the tables when each request is rendered and enqueued in turn. */
  function EnqueueAll(db: Db, reqs: seq<Request>, loc: int, env: Surroundings): Db {
    if reqs == [] then db
    else
      var n, req := |reqs| - 1, reqs[|reqs| - 1];
      var before := EnqueueAll(db, reqs[..n], loc, env);
      if env.renders(ScheduleKey(req)) then Enqueue(before, req, loc, env.inserted(n)) else before
  }

  /** The same as steps of the outbox. */
  function EnqueueSteps(reqs: seq<Request>, loc: int, env: Surroundings): seq<Step> {
    if reqs == [] then []
    else
      var n, req := |reqs| - 1, reqs[|reqs| - 1];
      EnqueueSteps(reqs[..n], loc, env)
      + if env.renders(ScheduleKey(req)) then [EnqueueStep(req, loc, env.inserted(n))] else []
  }

  /** A scan undisturbed by other processes is a run of enqueue steps. */
  lemma {:induction false} ScanRunsAsSteps(s: System, reqs: seq<Request>, loc: int, env: Surroundings)
    ensures Run(s, EnqueueSteps(reqs, loc, env)) == s.(db := EnqueueAll(s.db, reqs, loc, env))
  {
    hide Enqueue;
    if reqs != [] {
      var n, req := |reqs| - 1, reqs[|reqs| - 1];
      ScanRunsAsSteps(s, reqs[..n], loc, env);
      if !env.renders(ScheduleKey(req)) {
        assert EnqueueSteps(reqs, loc, env) == EnqueueSteps(reqs[..n], loc, env);
      } else {
        RunAppend(s, EnqueueSteps(reqs[..n], loc, env), [EnqueueStep(req, loc, env.inserted(n))]);
        OneStep(Run(s, EnqueueSteps(reqs[..n], loc, env)), EnqueueStep(req, loc, env.inserted(n)));
      }
    }
  }

  lemma OneStep(s: System, step: Step)
    ensures Run(s, [step]) == Next(s, step)
  {
    assert [step][1..] == [] && Run(Next(s, step), []) == Next(s, step);
  }

  lemma {:induction false} UpToGrows(pass: Pass, scan: Scan, i: nat, n: nat, loc: int)
    requires i <= n <= |Subs(pass, scan)|
    ensures UpTo(pass, scan, i, loc) <= UpTo(pass, scan, n, loc)
  {
    hide OnChannels;
    if i < n { UpToGrows(pass, scan, i, n - 1, loc); }
  }

  lemma {:induction false} OnChannelsGrows(pass: Pass, scan: Scan, i: nat, k: nat, m: nat, loc: int)
    requires i < |Subs(pass, scan)| && k <= m <= |scan.channels|
    ensures OnChannels(pass, scan, i, k, loc) <= OnChannels(pass, scan, i, m, loc)
  {
    hide RequestsFor;
    if k < m { OnChannelsGrows(pass, scan, i, k, m - 1, loc); }
  }

  /** Where in the three passes a request comes from. */
  lemma WhereAsked(scan: Scan, loc: int, req: Request) returns (pass: Pass, i: nat, m: nat)
    requires req in ScanRequests(scan, loc)
    ensures i < |Subs(pass, scan)| && m < |scan.channels|
    ensures var at := Readings(scan.today, scan.counted(i));
            req in RequestsFor(pass, Subs(pass, scan)[i], scan.channels[m], scan.policy, at, loc)
  {
    hide RequestsFor, OnChannels, UpTo;
    pass := if req in PassRequests(EndedPass, scan, loc) then EndedPass
            else if req in PassRequests(EndingPass, scan, loc) then EndingPass
            else BillingPass;
    i := WhichSubscription(pass, scan, |Subs(pass, scan)|, loc, req);
    m := WhichChannel(pass, scan, i, |scan.channels|, loc, req);
  }

  lemma {:induction false} WhichSubscription(pass: Pass, scan: Scan, n: nat, loc: int, req: Request)
    returns (i: nat)
    requires n <= |Subs(pass, scan)| && req in UpTo(pass, scan, n, loc)
    ensures i < n && req in OnChannels(pass, scan, i, |scan.channels|, loc)
  {
    hide OnChannels;
    if req in OnChannels(pass, scan, n - 1, |scan.channels|, loc) {
      i := n - 1;
    } else {
      i := WhichSubscription(pass, scan, n - 1, loc, req);
    }
  }

  lemma {:induction false} WhichChannel(pass: Pass, scan: Scan, i: nat, n: nat, loc: int, req: Request)
    returns (m: nat)
    requires i < |Subs(pass, scan)| && n <= |scan.channels| && req in OnChannels(pass, scan, i, n, loc)
    ensures m < n
    ensures var at := Readings(scan.today, scan.counted(i));
            req in RequestsFor(pass, Subs(pass, scan)[i], scan.channels[m], scan.policy, at, loc)
  {
    hide RequestsFor;
    var at := Readings(scan.today, scan.counted(i));
    if req in RequestsFor(pass, Subs(pass, scan)[i], scan.channels[n - 1], scan.policy, at, loc) {
      m := n - 1;
    } else {
      m := WhichChannel(pass, scan, i, n - 1, loc, req);
    }
  }

  lemma AskedSomewhere(scan: Scan, pass: Pass, i: nat, m: nat, loc: int, req: Request)
    requires i < |Subs(pass, scan)| && m < |scan.channels|
    requires var at := Readings(scan.today, scan.counted(i));
             req in RequestsFor(pass, Subs(pass, scan)[i], scan.channels[m], scan.policy, at, loc)
    ensures req in ScanRequests(scan, loc)
  {
    hide RequestsFor;
    var n := |Subs(pass, scan)|;
    assert req in OnChannels(pass, scan, i, m + 1, loc);
    OnChannelsGrows(pass, scan, i, m + 1, |scan.channels|, loc);
    InPrefix(OnChannels(pass, scan, i, m + 1, loc), OnChannels(pass, scan, i, |scan.channels|, loc), req);
    hide OnChannels;
    assert req in UpTo(pass, scan, i + 1, loc);
    UpToGrows(pass, scan, i + 1, n, loc);
    InPrefix(UpTo(pass, scan, i + 1, loc), UpTo(pass, scan, n, loc), req);
    hide UpTo;
    assert req in PassRequests(pass, scan, loc);
  }

  lemma InPrefix(a: seq<Request>, b: seq<Request>, req: Request)
    requires a <= b && req in a
    ensures req in b
  {
  }

  // ---- why remembering what was scheduled changes nothing ----

  /** What the scheduled map remembers of a request: everything but the channel row it came from. */
  function ScheduleKey(req: Request): Request {
    req.(channelId := 0)
  }

  ghost predicate Settled(db: Db, req: Request, loc: int) {
    AlreadySent(db.logs, req, loc) || HasKey(db.rows, RequestKey(req))
  }

  lemma SettledIgnoresChannelRow(db: Db, a: Request, b: Request, loc: int)
    requires ScheduleKey(a) == ScheduleKey(b)
    ensures Settled(db, a, loc) <==> Settled(db, b, loc)
  {
  }

  lemma EnqueueSettles(db: Db, req: Request, loc: int, now: int)
    ensures Settled(Enqueue(db, req, loc, now), req, loc)
    ensures Settled(db, req, loc) ==> Enqueue(db, req, loc, now) == db
    ensures forall other | Settled(db, other, loc) :: Settled(Enqueue(db, req, loc, now), other, loc)
  {
  }

  // ---- the service ----

  lemma OnlyDueRowsExpire(r: Row, now: int)
    ensures !DueToExpire(r, now) ==> ExpireRow(r, now) == r
  {
  }

  class NotificationOutbox {
    var rows: seq<Row>
    var logs: seq<Log>
    const ownerId: string
    const loc: int

    ghost function State(): Db
      reads this
    {
      Db(rows, logs)
    }

    constructor (ownerId: string, loc: int)
      ensures State() == Db([], []) && this.ownerId == ownerId && this.loc == loc
    {
      this.ownerId, this.loc := ownerId, loc;
      rows, logs := [], [];
    }

    method EnqueueRow(req: Request, now: int)
      modifies this
      ensures State() == Enqueue(old(State()), req, loc, now)
      ensures var covered := exists l | l in old(logs) :: AlreadySent([l], req, loc);
              var present := exists r | r in old(rows) :: r.dedupeKey == RequestKey(req);
              logs == old(logs) && rows == if covered || present then old(rows) else old(rows) + [NewRow(req, now)]
    {
      CoverByOneLog(logs, req, loc);
      if AlreadySent(logs, req, loc) {
        return;
      }
      if !HasKey(rows, RequestKey(req)) {
        rows := rows + [NewRow(req, now)];
      }
    }

    method ExpireDue(now: int) returns (expired: nat)
      modifies this`rows
      ensures rows == ExpireRows(old(rows), now)
      ensures |rows| == |old(rows)|
      ensures forall i | 0 <= i < |rows| ::
                && (rows[i] != old(rows)[i] <==> Overdue(old(rows)[i], now))
                && (Overdue(old(rows)[i], now) ==>
                      rows[i] == old(rows)[i].(status := Expired, lockedBy := "", lockedUntil := None))
                && !Overdue(rows[i], now)
                && (Ready(old(rows)[i], now) ==> Ready(rows[i], now))
      ensures expired == |set i | 0 <= i < |old(rows)| && Overdue(old(rows)[i], now)|
    {
      SweepExactly(rows, now);
      hide DueToExpire, ExpireRow, Overdue, Ready;
      expired := 0;
      ghost var done: set<int> := {};
      ghost var before := rows;
      for i := 0 to |rows|
        invariant |rows| == |before|
        invariant forall j | 0 <= j < i :: rows[j] == ExpireRow(before[j], now)
        invariant forall j | i <= j < |rows| :: rows[j] == before[j]
        invariant forall j :: j in done <==> 0 <= j < i && Overdue(before[j], now)
        invariant expired == |done|
      {
        DueExactly(rows[i], now);
        OnlyDueRowsExpire(rows[i], now);
        if DueToExpire(rows[i], now) {
          rows := rows[i := ExpireRow(rows[i], now)];
          expired := expired + 1;
          done := done + {i};
        }
      }
      assert rows == ExpireRows(before, now);
      assert done == set i | 0 <= i < |before| && Overdue(before[i], now);
    }

    /**
     * Claims the first due rows, fewer if the context is cancelled after the first uncancelled of
     * them, and returns them as they then stand, in id order.
     */
    method ClaimDue(now: int, batch: int, uncancelled: nat) returns (jobs: seq<Job>, ghost ids: seq<nat>)
      modifies this`rows
      ensures FirstDue(old(rows), now, if batch <= 0 then 0 else batch, ids)
      ensures var claimed := if uncancelled < |ids| then ids[..uncancelled] else ids;
              ClaimedRows(old(rows), rows, claimed, ownerId, now) && JobsOf(rows, claimed, ownerId, jobs)
              && |jobs| == |claimed|
      ensures forall i | 0 <= i < |rows| :: Ready(old(rows)[i], now) && i !in ids ==>
                |ids| == (if batch <= 0 then 0 else batch) && forall k | 0 <= k < |ids| ::
                  ComesFirst(old(rows), ids[k], i)
      ensures forall k | 0 <= k < |ids| :: ids[k] < |old(rows)| && Ready(old(rows)[ids[k]], now)
    {
      hide Ready, Claimable, ComesFirst;
      if batch <= 0 {
        FirstDueRows(rows, now, 0, []);
        return [], [];
      }
      ghost var before := rows;
      var due := FindDue(rows, now, batch);
      ids := due;
      FirstDueRows(before, now, batch, due);
      DueIdsDiffer(before, now, batch, due);
      var claimed := if uncancelled < |due| then due[..uncancelled] else due;
      ClaimRows(claimed, now);
      jobs := ReadBack(claimed);
      forall id | id in claimed ensures id < |rows| && HeldBy(rows[id], ownerId) {
        assert Claimable(before[id], now);
        assert rows[id] == ClaimRow(before[id], ownerId, now);
      }
      assert HeldAmong(rows, claimed, ownerId) == Elements(claimed);
      DistinctElements(claimed);
    }

    /** The update of each candidate is guarded again: one taken meanwhile is left alone. */
    method ClaimRows(ids: seq<nat>, now: int)
      requires forall k | 0 <= k < |ids| :: ids[k] < |rows|
      requires forall k, l | 0 <= k < l < |ids| :: ids[k] != ids[l]
      modifies this`rows
      ensures |rows| == |old(rows)|
      ensures forall i | 0 <= i < |rows| ::
                rows[i] == if i in ids && Claimable(old(rows)[i], now) then ClaimRow(old(rows)[i], ownerId, now)
                           else old(rows)[i]
    {
      hide Claimable, ClaimRow;
      ghost var before := rows;
      for k := 0 to |ids|
        invariant |rows| == |before|
        invariant forall i | 0 <= i < |rows| ::
                    rows[i] == if i in ids[..k] && Claimable(before[i], now) then ClaimRow(before[i], ownerId, now)
                               else before[i]
      {
        var id := ids[k];
        assert id !in ids[..k];
        if Claimable(rows[id], now) {
          rows := rows[id := ClaimRow(rows[id], ownerId, now)];
        }
        assert ids[..k + 1] == ids[..k] + [id];
      }
      assert ids[..|ids|] == ids;
    }

    /** Whichever of the rows this process still holds. */
    method ReadBack(ids: seq<nat>) returns (jobs: seq<Job>)
      ensures JobsOf(rows, ids, ownerId, jobs) && |jobs| == |HeldAmong(rows, ids, ownerId)|
    {
      hide HeldBy;
      jobs := [];
      ghost var found: set<nat> := {};
      for i := 0 to |rows|
        invariant forall x: nat :: x in found <==> x in ids && x < i && HeldBy(rows[x], ownerId)
        invariant |jobs| == |found|
        invariant forall k | 0 <= k < |jobs| ::
                    jobs[k].id in ids && jobs[k].id < i && jobs[k].row == rows[jobs[k].id]
                    && HeldBy(jobs[k].row, ownerId)
        invariant forall k, l | 0 <= k < l < |jobs| :: jobs[k].id < jobs[l].id
      {
        if i in ids && HeldBy(rows[i], ownerId) {
          jobs := jobs + [Job(i, rows[i])];
          found := found + {i};
        }
      }
      assert found == HeldAmong(rows, ids, ownerId);
    }

    method MarkRowSent(job: Job, now: int)
      modifies this
      ensures State() == MarkSent(old(State()), job, ownerId, now)
    {
      if job.id < |rows| && HeldBy(rows[job.id], ownerId) {
        rows := rows[job.id := Unlock(rows[job.id], Sent, "").(sentAt := Some(now))];
        logs := logs + [JobLog(job, LogSent, "", now)];
      }
    }

    method MarkRowFailed(job: Job, error: string, now: int)
      modifies this
      ensures State() == MarkFailed(old(State()), job, ownerId, error, now)
    {
      if job.id < |rows| && HeldBy(rows[job.id], ownerId) {
        var r := Unlock(rows[job.id], if AttemptsUsedUp(job) then Failed else Pending, error);
        if r.status == Pending {
          r := r.(nextAttemptAt := now + Backoff(job.row.attemptCount));
        }
        rows := rows[job.id := r];
        logs := logs + [JobLog(job, LogFailed, error, now)];
      }
    }

    method CloseRow(job: Job, status: Status, reason: string)
      modifies this`rows
      ensures State() == Close(old(State()), job, ownerId, status, reason)
    {
      if job.id < |rows| && HeldBy(rows[job.id], ownerId) {
        rows := rows[job.id := Unlock(rows[job.id], status, reason)];
      }
    }

    method ReleaseRow(job: Job, error: string, now: int)
      modifies this`rows
      ensures State() == Release(old(State()), job, ownerId, error, now)
    {
      if job.id < |rows| && HeldBy(rows[job.id], ownerId) {
        var retry := now + Backoff(job.row.attemptCount);
        rows := rows[job.id := Unlock(rows[job.id], Pending, error).(nextAttemptAt := retry)];
      }
    }

    /** One job, from its validity check to its last statement; sendError is the network's answer. */
    method Dispatch(job: Job, subscription: Lookup<Subscription>, policy: Lookup<Policy>, channel: Lookup<Channel>,
                    sendError: Option<string>, now: int, at: Readings, finishedAt: int) returns (outcome: Outcome)
      modifies this
      ensures State() == Finish(old(State()), job, ownerId, outcome, finishedAt)
      ensures outcome == OutcomeOf(Decide(job.row, subscription, policy, now, at, loc),
                                   if job.row.channelId.Some? then channel else NotFound, sendError)
      ensures var decision := Decide(job.row, subscription, policy, now, at, loc);
              var held := Held(old(State()), job, ownerId);
              var reachable := decision == Deliver && job.row.channelId.Some? && channel.Found?;
              && (!held ==> State() == old(State()))
              && (held ==>
                    OnlyRowOf(old(State()), State(), job)
                    && var r := rows[job.id];
                       && (r.status == Sent <==> reachable && sendError == None)
                       && (reachable && sendError == None ==>
                             r.sentAt == Some(finishedAt) && logs == old(logs) + [LogOf(job, LogSent, "", finishedAt)])
                       && (reachable && sendError.Some? ==>
                             && logs == old(logs) + [LogOf(job, LogFailed, sendError.value, finishedAt)]
                             && r.status == (if LastAttempt(job) then Failed else Pending)
                             && r.lastError == sendError.value
                             && (r.status == Pending ==>
                                 r.nextAttemptAt == finishedAt + RetryWait(job.row.attemptCount)))
                       && (!reachable ==> logs == old(logs))
                       && (decision.Retry?
                           || (decision == Deliver && job.row.channelId.Some? && channel.LookupFailed?) ==>
                             r.status == Pending && r.nextAttemptAt == finishedAt + RetryWait(job.row.attemptCount))
                       && (decision.Cancel?
                           || (decision == Deliver && (job.row.channelId == None || channel.NotFound?)) ==>
                             r.status == Cancelled)
                       && (decision == Expire ==> r.status == Expired))
    {
      hide MarkSent, MarkFailed, Close, Release, Decide;
      ghost var before := State();
      var decision := Decide(job.row, subscription, policy, now, at, loc);
      match decision {
        case Expire =>
          CloseRow(job, Expired, "");
          FinishExactly(before, job, ownerId, FoundExpired, finishedAt);
          return FoundExpired;
        case Cancel(reason) =>
          CloseRow(job, Cancelled, reason);
          FinishExactly(before, job, ownerId, Withdrawn(reason), finishedAt);
          return Withdrawn(reason);
        case Retry(e) =>
          ReleaseRow(job, e, finishedAt);
          FinishExactly(before, job, ownerId, PutBack(e), finishedAt);
          return PutBack(e);
        case Deliver =>
      }
      if job.row.channelId.None? || channel.NotFound? {
        CloseRow(job, Cancelled, "notification channel not found or disabled");
        FinishExactly(before, job, ownerId, Withdrawn("notification channel not found or disabled"), finishedAt);
        return Withdrawn("notification channel not found or disabled");
      }
      if channel.LookupFailed? {
        ReleaseRow(job, channel.error, finishedAt);
        FinishExactly(before, job, ownerId, PutBack(channel.error), finishedAt);
        return PutBack(channel.error);
      }
      if sendError.Some? {
        MarkRowFailed(job, sendError.value, finishedAt);
        FinishExactly(before, job, ownerId, DeliveryFailed(sendError.value), finishedAt);
        return DeliveryFailed(sendError.value);
      }
      MarkRowSent(job, finishedAt);
      FinishExactly(before, job, ownerId, Delivered, finishedAt);
      return Delivered;
    }

    /**
     * One user's scan. It remembers what it has tried to schedule and skips repeats (two channels
     * of one type); the tables end up as if it had rendered and enqueued every request, or every
     * request before the one at which the database failed.
     */
    method ProcessUserNotifications(scan: Scan, env: Surroundings) returns (ok: bool, ghost done: seq<Request>)
      modifies this
      ensures State() == EnqueueAll(old(State()), done, loc, env)
      ensures if ok then done == ScanRequests(scan, loc) else StoppedAt(done, ScanRequests(scan, loc), env)
    {
      hide EnqueueAll, UpTo;
      ghost var start := State();
      var asked: seq<Request>, scheduled: set<Request> := [], {};
      assert State() == EnqueueAll(start, asked, loc, env) by { NothingAsked(start, loc, env); }
      ok, asked, scheduled := ScanPass(EndedPass, scan, env, asked, scheduled, start);
      if !ok {
        return false, asked;
      }
      assert asked == PassRequests(EndedPass, scan, loc);
      ok, asked, scheduled := ScanPass(EndingPass, scan, env, asked, scheduled, start);
      if !ok {
        return false, asked;
      }
      assert asked == PassRequests(EndedPass, scan, loc) + PassRequests(EndingPass, scan, loc);
      ok, asked, scheduled := ScanPass(BillingPass, scan, env, asked, scheduled, start);
      return ok, asked;
    }

    /** A request that has been scheduled and can be rendered would not be inserted again. */
    ghost predicate AllSettled(scheduled: set<Request>, env: Surroundings)
      reads this
    {
      forall e | e in scheduled && env.renders(e) :: Settled(State(), e, loc)
    }

    method ScanPass(pass: Pass, scan: Scan, env: Surroundings, asked: seq<Request>, scheduled: set<Request>,
                    ghost start: Db)
      returns (ok: bool, asked': seq<Request>, scheduled': set<Request>)
      requires State() == EnqueueAll(start, asked, loc, env) && AllSettled(scheduled, env)
      modifies this
      ensures State() == EnqueueAll(start, asked', loc, env) && AllSettled(scheduled', env)
      ensures var all := asked + PassRequests(pass, scan, loc);
              if ok then asked' == all else StoppedAt(asked', all, env)
    {
      hide EnqueueAll, OnChannels;
      asked', scheduled' := asked, scheduled;
      for i := 0 to |Subs(pass, scan)|
        invariant asked' == asked + UpTo(pass, scan, i, loc)
        invariant State() == EnqueueAll(start, asked', loc, env) && AllSettled(scheduled', env)
      {
        ok, asked', scheduled' := ScanChannels(pass, scan, i, env, asked', scheduled', start);
        UpToGrows(pass, scan, i + 1, |Subs(pass, scan)|, loc);
        assert asked + UpTo(pass, scan, i, loc) + OnChannels(pass, scan, i, |scan.channels|, loc)
            == asked + UpTo(pass, scan, i + 1, loc);
        if !ok {
          return;
        }
      }
      ok := true;
    }

    method ScanChannels(pass: Pass, scan: Scan, i: nat, env: Surroundings, asked: seq<Request>, scheduled: set<Request>,
                        ghost start: Db)
      returns (ok: bool, asked': seq<Request>, scheduled': set<Request>)
      requires i < |Subs(pass, scan)|
      requires State() == EnqueueAll(start, asked, loc, env) && AllSettled(scheduled, env)
      modifies this
      ensures State() == EnqueueAll(start, asked', loc, env) && AllSettled(scheduled', env)
      ensures var all := asked + OnChannels(pass, scan, i, |scan.channels|, loc);
              if ok then asked' == all else StoppedAt(asked', all, env)
    {
      hide EnqueueAll, RequestsFor;
      asked', scheduled' := asked, scheduled;
      for m := 0 to |scan.channels|
        invariant asked' == asked + OnChannels(pass, scan, i, m, loc)
        invariant State() == EnqueueAll(start, asked', loc, env) && AllSettled(scheduled', env)
      {
        var at := Readings(scan.today, scan.counted(i));
        var reqs := RequestsFor(pass, Subs(pass, scan)[i], scan.channels[m], scan.policy, at, loc);
        OnChannelsGrows(pass, scan, i, m + 1, |scan.channels|, loc);
        assert asked + OnChannels(pass, scan, i, m, loc) + reqs == asked + OnChannels(pass, scan, i, m + 1, loc);
        ghost var before := asked';
        for k := 0 to |reqs|
          invariant asked' == before + reqs[..k]
          invariant State() == EnqueueAll(start, asked', loc, env) && AllSettled(scheduled', env)
        {
          ok, scheduled' := ScheduleOnce(reqs[k], env, asked', scheduled', start);
          if !ok {
            assert before + reqs <= asked + OnChannels(pass, scan, i, |scan.channels|, loc);
            return;
          }
          asked' := asked' + [reqs[k]];
        }
        assert reqs[..|reqs|] == reqs;
      }
      ok := true;
    }

    method ScheduleOnce(req: Request, env: Surroundings, asked: seq<Request>, scheduled: set<Request>, ghost start: Db)
      returns (ok: bool, scheduled': set<Request>)
      requires State() == EnqueueAll(start, asked, loc, env) && AllSettled(scheduled, env)
      modifies this
      ensures State() == EnqueueAll(start, if ok then asked + [req] else asked, loc, env)
      ensures AllSettled(scheduled', env)
      ensures !ok ==> env.fails(|asked|)
    {
      hide Enqueue, Settled;
      var key := ScheduleKey(req);
      assert (asked + [req])[..|asked|] == asked;
      EnqueueSettles(State(), req, loc, env.inserted(|asked|));
      SettledIgnoresChannelRow(State(), req, key, loc);
      SettledIgnoresChannelRow(Enqueue(State(), req, loc, env.inserted(|asked|)), req, key, loc);
      if key in scheduled {
        return true, scheduled;
      }
      scheduled' := scheduled + {key};
      if !env.renders(key) {
        return true, scheduled';
      }
      if env.fails(|asked|) {
        return false, scheduled;
      }
      EnqueueRow(req, env.inserted(|asked|));
      ok := true;
    }
  }

  /** The scan ended early: everything before the request at which the database failed was asked. */
  ghost predicate StoppedAt(asked: seq<Request>, all: seq<Request>, env: Surroundings) {
    asked <= all && |asked| < |all| && env.fails(|asked|)
  }

  lemma NothingAsked(db: Db, loc: int, env: Surroundings)
    ensures EnqueueAll(db, [], loc, env) == db
  {
  }

  /** The outcome each decision, channel lookup and send result leads to. */
  function OutcomeOf(decision: Decision, channel: Lookup<Channel>, sendError: Option<string>): Outcome {
    match decision
    case Expire => FoundExpired
    case Cancel(reason) => Withdrawn(reason)
    case Retry(e) => PutBack(e)
    case Deliver =>
      match channel
      case NotFound => Withdrawn("notification channel not found or disabled")
      case LookupFailed(e) => PutBack(e)
      case Found(_) => if sendError.Some? then DeliveryFailed(sendError.value) else Delivered
  }

  /** In columns: only ready rows are first, and one is left out only for a full batch of earlier ones. */
  lemma FirstDueRows(rows: seq<Row>, now: int, batch: nat, ids: seq<nat>)
    requires FirstDue(rows, now, batch, ids)
    ensures forall k | 0 <= k < |ids| :: ids[k] < |rows| && Ready(rows[ids[k]], now)
    ensures forall i | 0 <= i < |rows| :: Ready(rows[i], now) && i !in ids ==>
              |ids| == batch && forall k | 0 <= k < |ids| :: ComesFirst(rows, ids[k], i)
  {
    forall k | 0 <= k < |ids| ensures ids[k] < |rows| && Ready(rows[ids[k]], now) { DueExactly(rows[ids[k]], now); }
    forall i | 0 <= i < |rows| && Ready(rows[i], now) && i !in ids
      ensures |ids| == batch && forall k | 0 <= k < |ids| :: ComesFirst(rows, ids[k], i)
    {
      DueExactly(rows[i], now);
      hide Ready, Claimable;
    }
  }

  lemma DueIdsDiffer(rows: seq<Row>, now: int, batch: nat, ids: seq<nat>)
    requires FirstDue(rows, now, batch, ids)
    ensures forall k, l | 0 <= k < l < |ids| :: ids[k] != ids[l]
  {
  }

  function Elements(ids: seq<nat>): set<nat> {
    set x | x in ids
  }

  lemma {:induction false} DistinctElements(ids: seq<nat>)
    requires forall k, l | 0 <= k < l < |ids| :: ids[k] != ids[l]
    ensures |Elements(ids)| == |ids|
  {
    if ids != [] {
      var n := |ids| - 1;
      DistinctElements(ids[..n]);
      assert Elements(ids) == Elements(ids[..n]) + {ids[n]};
    }
  }
}
