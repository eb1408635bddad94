/** The background-task lease: one owner at a time runs a periodic task. */
module TaskLease {
  import opened Basics

  datatype Lease = Lease(ownerId: string, leaseUntil: int, heartbeatAt: int)

  type Leases = map<string, Lease>

  /** One call of acquire, with the clock reading its caller took. */
  datatype Acquire = Acquire(ownerId: string, taskKey: string, ttl: int, now: int)

  predicate Proper(a: Acquire) {
    a.taskKey != "" && a.ownerId != "" && a.ttl > 0
  }

  predicate Succeeds(leases: Leases, a: Acquire) {
    && Proper(a)
    && (a.taskKey in leases ==> leases[a.taskKey].leaseUntil <= a.now || leases[a.taskKey].ownerId == a.ownerId)
  }

  function After(leases: Leases, a: Acquire): Leases {
    if Succeeds(leases, a) then leases[a.taskKey := Lease(a.ownerId, a.now + a.ttl, a.now)] else leases
  }

  class LeaseTable {
    var leases: Leases

    constructor ()
      ensures leases == map[]
    {
      leases := map[];
    }

    /** INSERT ... ON CONFLICT DO NOTHING, then an UPDATE guarded by expiry or ownership. */
    method TryAcquire(ownerId: string, taskKey: string, ttl: int, now: int) returns (acquired: bool)
      modifies this
      ensures acquired == Succeeds(old(leases), Acquire(ownerId, taskKey, ttl, now))
      ensures leases == After(old(leases), Acquire(ownerId, taskKey, ttl, now))
      ensures acquired <==> taskKey != "" && ownerId != "" && ttl > 0
                            && (taskKey in old(leases) ==> old(leases)[taskKey].leaseUntil <= now
                                                           || old(leases)[taskKey].ownerId == ownerId)
      ensures if acquired then
                && leases.Keys == old(leases).Keys + {taskKey}
                && leases[taskKey] == Lease(ownerId, now + ttl, now)
                && forall k | k in old(leases) && k != taskKey :: leases[k] == old(leases)[k]
              else leases == old(leases)
    {
      if taskKey == "" || ownerId == "" || ttl <= 0 {
        return false;
      }
      var lease := Lease(ownerId, now + ttl, now);
      if taskKey !in leases {
        leases := leases[taskKey := lease];
        return true;
      }
      if leases[taskKey].leaseUntil <= now || leases[taskKey].ownerId == ownerId {
        leases := leases[taskKey := lease];
        return true;
      }
      return false;
    }
  }

  // ---- whole runs ----

  function Run(leases: Leases, calls: seq<Acquire>): Leases {
    if calls == [] then leases else After(Run(leases, calls[..|calls| - 1]), calls[|calls| - 1])
  }

  predicate Acquired(leases: Leases, calls: seq<Acquire>, i: nat)
    requires i < |calls|
  {
    Succeeds(Run(leases, calls[..i]), calls[i])
  }

  /** Each owner's calls on a task take effect in the order in which that owner read its clock. */
  ghost predicate OwnersInOrder(calls: seq<Acquire>) {
    forall i, j | 0 <= i < j < |calls| && calls[i].ownerId == calls[j].ownerId
                  && calls[i].taskKey == calls[j].taskKey ::
      calls[i].now <= calls[j].now
  }

  /** i is the last call before end that acquired the task. */
  ghost predicate LastHolder(leases: Leases, calls: seq<Acquire>, taskKey: string, i: nat, end: nat)
    requires end <= |calls|
  {
    && i < end && calls[i].taskKey == taskKey && Acquired(leases, calls, i)
    && forall j | i < j < end && calls[j].taskKey == taskKey :: !Acquired(leases, calls, j)
  }

  /** The lease row always shows the last successful acquire. */
  lemma {:induction false} RowShowsLastHolder(leases: Leases, calls: seq<Acquire>, taskKey: string, i: nat, end: nat)
    requires end <= |calls| && LastHolder(leases, calls, taskKey, i, end)
    ensures taskKey in Run(leases, calls[..end])
    ensures Run(leases, calls[..end])[taskKey] == Lease(calls[i].ownerId, calls[i].now + calls[i].ttl, calls[i].now)
  {
    assert calls[..end][..end - 1] == calls[..end - 1];
    if i + 1 < end {
      RowShowsLastHolder(leases, calls, taskKey, i, end - 1);
    }
  }

  lemma {:induction false} FindLastHolder(leases: Leases, calls: seq<Acquire>, taskKey: string, i: nat, end: nat)
    returns (h: nat)
    requires i < end <= |calls| && calls[i].taskKey == taskKey && Acquired(leases, calls, i)
    ensures i <= h && LastHolder(leases, calls, taskKey, h, end)
    decreases end
  {
    if calls[end - 1].taskKey == taskKey && Acquired(leases, calls, end - 1) {
      h := end - 1;
    } else {
      h := FindLastHolder(leases, calls, taskKey, i, end - 1);
    }
  }

  /** Along the acquires of one task, clock readings never go back. */
  lemma {:induction false} AcquiresAreInClockOrder(leases: Leases, calls: seq<Acquire>, i: nat, j: nat)
    requires OwnersInOrder(calls) && i < j < |calls| && calls[i].taskKey == calls[j].taskKey
    requires Acquired(leases, calls, i) && Acquired(leases, calls, j)
    ensures calls[i].now <= calls[j].now
    decreases j
  {
    var h := FindLastHolder(leases, calls, calls[j].taskKey, i, j);
    RowShowsLastHolder(leases, calls, calls[j].taskKey, h, j);
    if i < h {
      AcquiresAreInClockOrder(leases, calls, i, h);
    }
  }

  /** The owner's last acquire of the task before call j. */
  ghost predicate LatestOf(leases: Leases, calls: seq<Acquire>, i: nat, j: nat)
    requires j < |calls|
  {
    && i < j && calls[i].taskKey == calls[j].taskKey && Acquired(leases, calls, i)
    && forall k | i < k < j && calls[k].taskKey == calls[i].taskKey && calls[k].ownerId == calls[i].ownerId ::
       !Acquired(leases, calls, k)
  }

  /**
   * If two different owners acquire a task, the later one does so at or after the end of the
   * earlier one's latest lease: tenures of different owners never overlap.
   */
  lemma TenuresDoNotOverlap(leases: Leases, calls: seq<Acquire>, i: nat, j: nat)
    requires OwnersInOrder(calls) && j < |calls| && LatestOf(leases, calls, i, j)
    requires Acquired(leases, calls, j) && calls[i].ownerId != calls[j].ownerId
    ensures calls[j].now >= calls[i].now + calls[i].ttl
  {
    var task := calls[j].taskKey;
    var next := FirstAcquireAfter(leases, calls, i, j);
    RowShowsLastHolder(leases, calls, task, i, next);
    if next < j {
      AcquiresAreInClockOrder(leases, calls, next, j);
    }
  }

  lemma {:induction false} FirstAcquireAfter(leases: Leases, calls: seq<Acquire>, i: nat, j: nat) returns (next: nat)
    requires i < j < |calls| && calls[i].taskKey == calls[j].taskKey
    requires Acquired(leases, calls, i) && Acquired(leases, calls, j)
    ensures i < next <= j && calls[next].taskKey == calls[j].taskKey && Acquired(leases, calls, next)
    ensures LastHolder(leases, calls, calls[j].taskKey, i, next)
  {
    next := i + 1;
    while !(calls[next].taskKey == calls[j].taskKey && Acquired(leases, calls, next))
      invariant i < next <= j
      invariant LastHolder(leases, calls, calls[j].taskKey, i, next)
      decreases j - next
    {
      next := next + 1;
    }
  }

  /**
   * A renewal by its holder keeps other owners out until the end of the held lease exactly when it
   * does not end earlier.
   */
  lemma RenewalKeepsTheLeaseExactly(leases: Leases, a: Acquire)
    requires Proper(a) && a.taskKey in leases && leases[a.taskKey].ownerId == a.ownerId
    ensures var until := leases[a.taskKey].leaseUntil;
            (forall b: Acquire | b.taskKey == a.taskKey && b.ownerId != a.ownerId && Succeeds(After(leases, a), b) ::
               b.now >= until)
            <==> a.now + a.ttl >= until
  {
    if a.now + a.ttl < leases[a.taskKey].leaseUntil {
      var b := Acquire(a.ownerId + "'", a.taskKey, 1, a.now + a.ttl);
      assert b.ownerId != a.ownerId && Succeeds(After(leases, a), b);
    }
  }

  // ---- exactly when nobody can get in too early ----

  /** Before call end, i is its owner's last acquire of its task. */
  ghost predicate LatestBefore(leases: Leases, calls: seq<Acquire>, i: nat, end: nat)
    requires end <= |calls|
  {
    && i < end && Acquired(leases, calls, i)
    && forall k | i < k < end && calls[k].taskKey == calls[i].taskKey && calls[k].ownerId == calls[i].ownerId ::
         !Acquired(leases, calls, k)
  }

  function EndOf(a: Acquire): int {
    a.now + a.ttl
  }

  /** Whoever takes a task over after the first end calls, does so when every other owner's latest lease is over. */
  ghost predicate TakeOversAreSafe(leases: Leases, calls: seq<Acquire>, end: nat)
    requires end <= |calls|
  {
    forall i, b: Acquire | 0 <= i < end && LatestBefore(leases, calls, i, end)
                           && TakesOver(Run(leases, calls[..end]), b)
                           && b.taskKey == calls[i].taskKey && b.ownerId != calls[i].ownerId ::
      b.now >= EndOf(calls[i])
  }

  /** b acquires a task that another owner's row still names. */
  predicate TakesOver(leases: Leases, b: Acquire) {
    Succeeds(leases, b) && b.taskKey in leases && leases[b.taskKey].ownerId != b.ownerId
  }

  /** If call k renews its owner's lease, the new one ends no earlier than any other owner's latest lease. */
  ghost predicate RenewsFarEnough(leases: Leases, calls: seq<Acquire>, k: nat)
    requires k < |calls|
  {
    Renews(Run(leases, calls[..k]), calls[k]) ==>
      forall i | 0 <= i < k && LatestBefore(leases, calls, i, k)
                 && calls[i].taskKey == calls[k].taskKey && calls[i].ownerId != calls[k].ownerId ::
        EndOf(calls[k]) >= EndOf(calls[i])
  }

  predicate Renews(leases: Leases, a: Acquire) {
    Proper(a) && a.taskKey in leases && leases[a.taskKey].ownerId == a.ownerId
  }

  /** The row of each task runs at least as long as every owner's latest lease of it. */
  ghost predicate RowsOutlastAll(leases: Leases, calls: seq<Acquire>, end: nat)
    requires end <= |calls|
  {
    var table := Run(leases, calls[..end]);
    forall i | 0 <= i < end && LatestBefore(leases, calls, i, end) ::
      calls[i].taskKey in table && EndOf(calls[i]) <= table[calls[i].taskKey].leaseUntil
  }

  lemma SafeExactlyIfRowsOutlast(leases: Leases, calls: seq<Acquire>, end: nat)
    requires end <= |calls|
    ensures TakeOversAreSafe(leases, calls, end) <==> RowsOutlastAll(leases, calls, end)
  {
    var table := Run(leases, calls[..end]);
    if TakeOversAreSafe(leases, calls, end) {
      forall i | 0 <= i < end && LatestBefore(leases, calls, i, end)
        ensures calls[i].taskKey in table && EndOf(calls[i]) <= table[calls[i].taskKey].leaseUntil
      {
        var h := FindLastHolder(leases, calls, calls[i].taskKey, i, end);
        RowShowsLastHolder(leases, calls, calls[i].taskKey, h, end);
        var row := table[calls[i].taskKey];
        var b := Acquire(row.ownerId + calls[i].ownerId + "'", calls[i].taskKey, 1, row.leaseUntil);
        assert |b.ownerId| > |row.ownerId| && |b.ownerId| > |calls[i].ownerId|;
        assert TakesOver(table, b);
      }
    }
  }

  lemma OneMoreCall(leases: Leases, calls: seq<Acquire>, k: nat)
    requires k < |calls|
    ensures Run(leases, calls[..k + 1]) == After(Run(leases, calls[..k]), calls[k])
  {
    assert calls[..k + 1][..k] == calls[..k];
  }

  /** From a table that outlasts all, one call keeps it so exactly when it renews far enough, if it renews. */
  lemma CallKeepsRowsExactly(leases: Leases, calls: seq<Acquire>, k: nat)
    requires k < |calls| && RowsOutlastAll(leases, calls, k)
    ensures RowsOutlastAll(leases, calls, k + 1) <==> RenewsFarEnough(leases, calls, k)
  {
    hide Run, Acquired;
    AcquiredMeans(leases, calls, k);
    OneMoreCall(leases, calls, k);
    var table, table' := Run(leases, calls[..k]), Run(leases, calls[..k + 1]);
    forall i | 0 <= i < k && LatestBefore(leases, calls, i, k + 1) ensures LatestBefore(leases, calls, i, k) {}
    forall i | 0 <= i < k && LatestBefore(leases, calls, i, k) && calls[i].ownerId != calls[k].ownerId
      ensures LatestBefore(leases, calls, i, k + 1)
    {}
    if RenewsFarEnough(leases, calls, k) {
      forall i | 0 <= i < k + 1 && LatestBefore(leases, calls, i, k + 1)
        ensures calls[i].taskKey in table' && EndOf(calls[i]) <= table'[calls[i].taskKey].leaseUntil
      {
        if i == k {
          assert Acquired(leases, calls, k);
        } else {
          assert LatestBefore(leases, calls, i, k);
        }
      }
    }
  }

  lemma AcquiredMeans(leases: Leases, calls: seq<Acquire>, k: nat)
    requires k < |calls|
    ensures Acquired(leases, calls, k) == Succeeds(Run(leases, calls[..k]), calls[k])
  {
  }

  /**
   * In any run, at no moment can a task be taken over before every other owner's latest lease of
   * it is over, exactly when every renewal in the run ends no earlier than those leases.
   */
  lemma TakeOversSafeExactlyIfRenewalsReach(leases: Leases, calls: seq<Acquire>)
    ensures (forall end | 0 <= end <= |calls| :: TakeOversAreSafe(leases, calls, end))
            <==> forall k | 0 <= k < |calls| :: RenewsFarEnough(leases, calls, k)
  {
    hide TakeOversAreSafe, RowsOutlastAll, RenewsFarEnough;
    forall end | 0 <= end <= |calls|
      ensures TakeOversAreSafe(leases, calls, end) <==> RowsOutlastAll(leases, calls, end)
    {
      SafeExactlyIfRowsOutlast(leases, calls, end);
    }
    RowsOutlastExactly(leases, calls, |calls|);
  }

  lemma NothingToOutlast(leases: Leases, calls: seq<Acquire>)
    ensures RowsOutlastAll(leases, calls, 0)
  {
  }

  lemma {:induction false} RowsOutlastExactly(leases: Leases, calls: seq<Acquire>, n: nat)
    requires n <= |calls|
    ensures (forall end | 0 <= end <= n :: RowsOutlastAll(leases, calls, end))
            <==> forall k | 0 <= k < n :: RenewsFarEnough(leases, calls, k)
  {
    hide RowsOutlastAll, RenewsFarEnough;
    if n == 0 {
      NothingToOutlast(leases, calls);
    } else {
      RowsOutlastExactly(leases, calls, n - 1);
      if RowsOutlastAll(leases, calls, n - 1) {
        CallKeepsRowsExactly(leases, calls, n - 1);
      }
    }
  }

  /** Calls in each owner's clock order renew far enough, whatever their ttls. */
  lemma OrderedRenewalsReach(leases: Leases, calls: seq<Acquire>)
    requires OwnersInOrder(calls)
    ensures forall k | 0 <= k < |calls| :: RenewsFarEnough(leases, calls, k)
  {
    hide Run;
    forall k, i | 0 <= i < k < |calls| && Renews(Run(leases, calls[..k]), calls[k])
                  && LatestBefore(leases, calls, i, k)
                  && calls[i].taskKey == calls[k].taskKey && calls[i].ownerId != calls[k].ownerId
      ensures EndOf(calls[k]) >= EndOf(calls[i])
    {
      AcquiredMeans(leases, calls, k);
      TenuresDoNotOverlap(leases, calls, i, k);
    }
  }

  /** An instance with one ttl throughout: a renewal that carries an older reading than the lease it renews. */
  lemma LateRenewalShortensTheLease(ttl: int)
    requires ttl > 0
    ensures var calls := [Acquire("a", "scan", ttl, ttl), Acquire("a", "scan", ttl, 0), Acquire("b", "scan", ttl, ttl)];
            && Acquired(map[], calls, 0) && Acquired(map[], calls, 1) && Acquired(map[], calls, 2)
            && calls[2].now < calls[0].now + calls[0].ttl && !OwnersInOrder(calls)
  {
  }

  /**
   * Tenures of different owners do overlap once one owner's calls apply out of its clock order:
   * c shortens its own lease to before a's was over, and b gets in while a's last tenure still runs.
   */
  lemma OutOfOrderRenewalLetsTenuresOverlap(ttl: int)
    requires ttl > 1
    ensures var calls := [Acquire("a", "scan", ttl, 0), Acquire("c", "scan", ttl, ttl),
                          Acquire("c", "scan", ttl, 1 - ttl),
                          Acquire("b", "scan", ttl, 1)];
            && LatestOf(map[], calls, 0, 3) && Acquired(map[], calls, 3) && calls[0].ownerId != calls[3].ownerId
            && calls[3].now < calls[0].now + calls[0].ttl && !OwnersInOrder(calls)
  {
    var a, c, d, b := Acquire("a", "scan", ttl, 0), Acquire("c", "scan", ttl, ttl), Acquire("c", "scan", ttl, 1 - ttl),
      Acquire("b", "scan", ttl, 1);
    var calls := [a, c, d, b];
    assert calls[..0] == [] && calls[..1] == [a] && calls[..2] == [a, c] && calls[..3] == [a, c, d];
    assert [a][..0] == [] && [a, c][..1] == [a] && [a, c, d][..2] == [a, c];
    assert Run(map[], []) == map[];
    assert Run(map[], [a]) == map["scan" := Lease("a", ttl, 0)];
    assert Run(map[], [a, c]) == map["scan" := Lease("c", ttl + ttl, ttl)];
    assert Run(map[], [a, c, d]) == map["scan" := Lease("c", 1, 1 - ttl)];
    assert calls[2].now < calls[1].now;
  }
}
