/** How far apart the claims of one row are, and what that says about its number of attempts. */
module OutboxSpacing {
  import opened Basics
  import opened Calendar
  import opened DedupeKeys
  import opened Outbox

  /** The row cannot be claimed again before its last claim's lease has run out. */
  ghost predicate Spaced(r: Row) {
    r.lastAttemptAt.Some? ==>
      && (r.status == Processing ==> r.lockedUntil == Some(r.lastAttemptAt.value + LEASE_TTL))
      && (r.status == Pending ==> r.nextAttemptAt >= r.lastAttemptAt.value + LEASE_TTL || ExpiredBy(r, r.nextAttemptAt))
  }

  predicate ExpiredBy(r: Row, t: int) {
    r.expiresAt.Some? && r.expiresAt.value <= t
  }

  /** The step puts row id back for a retry. */
  predicate PutsBack(s: System, step: Step, id: nat) {
    && step.FinishStep?
    && step.worker < |s.workers| && s.workers[step.worker].Holding?
    && var w := s.workers[step.worker];
       && w.job.id == id && Applies(s.db, w.job, w.owner)
       && (step.outcome.PutBack? || (step.outcome.DeliveryFailed? && !AttemptsUsedUp(w.job)))
  }

  /** The retry time computed by the step is past the row's last lease, or the row has expired by then. */
  predicate Timely(s: System, step: Step, id: nat) {
    PutsBack(s, step, id) ==>
      var r := s.db.rows[id];
      var retry := step.now + Backoff(s.workers[step.worker].job.row.attemptCount);
      r.lastAttemptAt.Some? ==> retry >= r.lastAttemptAt.value + LEASE_TTL || ExpiredBy(r, retry)
  }

  predicate TimelyRun(s: System, steps: seq<Step>, id: nat)
    decreases |steps|
  {
    steps == [] || (Timely(s, steps[0], id) && TimelyRun(Next(s, steps[0]), steps[1..], id))
  }

  predicate Claims(s: System, step: Step, id: nat) {
    step.ClaimStep? && step.id == id && ClaimSucceeds(s.db, id, step.now)
  }

  /** The times at which the run claims row id. */
  function ClaimTimes(s: System, steps: seq<Step>, id: nat): seq<int>
    decreases |steps|
  {
    if steps == [] then []
    else
      var rest := ClaimTimes(Next(s, steps[0]), steps[1..], id);
      if Claims(s, steps[0], id) then [steps[0].now] + rest else rest
  }

  lemma StepSpaces(s: System, step: Step, id: nat)
    requires id < |s.db.rows| && Spaced(s.db.rows[id]) && Timely(s, step, id)
    ensures id < |Next(s, step).db.rows|
    ensures var r, r' := s.db.rows[id], Next(s, step).db.rows[id];
            && Spaced(r')
            && r'.expiresAt == r.expiresAt
            && (if Claims(s, step, id)
                then r'.attemptCount == r.attemptCount + 1 && r'.lastAttemptAt == Some(step.now)
                     && (r.lastAttemptAt.Some? ==> step.now >= r.lastAttemptAt.value + LEASE_TTL)
                else r'.attemptCount == r.attemptCount && r'.lastAttemptAt == r.lastAttemptAt)
  {
  }

  // ---- exactly when the gap holds ----

  /** Whoever claims the row next, whenever that is, does so a lease after its last claim. */
  ghost predicate NextClaimIsSpaced(r: Row) {
    r.lastAttemptAt.Some? ==> forall t | Claimable(r, t) :: t >= r.lastAttemptAt.value + LEASE_TTL
  }

  /** So it is at every moment of the run. */
  ghost predicate AlwaysSpaced(s: System, steps: seq<Step>, id: nat)
    decreases |steps|
  {
    && id < |s.db.rows| && NextClaimIsSpaced(s.db.rows[id])
    && (steps != [] ==> AlwaysSpaced(Next(s, steps[0]), steps[1..], id))
  }

  lemma SpacedRowIsSafe(r: Row)
    requires Spaced(r)
    ensures NextClaimIsSpaced(r)
  {
  }

  lemma UntimelyRetryIsNot(s: System, step: Step, id: nat)
    requires id < |s.db.rows| && !Timely(s, step, id)
    ensures id < |Next(s, step).db.rows| && !NextClaimIsSpaced(Next(s, step).db.rows[id])
  {
    var r, w := s.db.rows[id], s.workers[step.worker];
    var retry := step.now + Backoff(w.job.row.attemptCount);
    var r' := Next(s, step).db.rows[id];
    assert r'.status == Pending && r'.nextAttemptAt == retry && r'.lockedUntil == None
        && r'.lastAttemptAt == r.lastAttemptAt && r'.expiresAt == r.expiresAt;
    assert Claimable(r', retry);
  }

  /**
   * From a spaced row, the gap before any next claim holds all along a run exactly when every retry
   * in it is timely.
   */
  lemma {:induction false} GapHoldsExactlyWhenTimely(s: System, steps: seq<Step>, id: nat)
    requires id < |s.db.rows| && Spaced(s.db.rows[id])
    ensures AlwaysSpaced(s, steps, id) <==> TimelyRun(s, steps, id)
    decreases |steps|
  {
    hide Timely, Spaced, NextClaimIsSpaced, Next;
    SpacedRowIsSafe(s.db.rows[id]);
    if steps != [] {
      if Timely(s, steps[0], id) {
        StepSpaces(s, steps[0], id);
        GapHoldsExactlyWhenTimely(Next(s, steps[0]), steps[1..], id);
      } else {
        UntimelyRetryIsNot(s, steps[0], id);
      }
    }
  }

  /** Every claim of a row is at least one lease after the one before it, and none is at or after expiry. */
  lemma {:induction false} ClaimsAreSpaced(s: System, steps: seq<Step>, id: nat)
    requires id < |s.db.rows| && Spaced(s.db.rows[id]) && TimelyRun(s, steps, id)
    ensures id < |Run(s, steps).db.rows|
    ensures var times, r := ClaimTimes(s, steps, id), s.db.rows[id];
            && Run(s, steps).db.rows[id].attemptCount == r.attemptCount + |times|
            && (forall k | 0 <= k < |times| - 1 :: times[k] + LEASE_TTL <= times[k + 1])
            && (times != [] && r.lastAttemptAt.Some? ==> times[0] >= r.lastAttemptAt.value + LEASE_TTL)
            && (r.expiresAt.Some? ==> forall k | 0 <= k < |times| :: times[k] < r.expiresAt.value)
    decreases |steps|
  {
    if steps != [] {
      StepSpaces(s, steps[0], id);
      ClaimsAreSpaced(Next(s, steps[0]), steps[1..], id);
    }
  }

  lemma {:induction false} GapsAddUp(times: seq<int>, k: nat)
    requires k < |times|
    requires forall i | 0 <= i < |times| - 1 :: times[i] + LEASE_TTL <= times[i + 1]
    ensures times[0] + k * LEASE_TTL <= times[k]
  {
    if k > 0 {
      GapsAddUp(times, k - 1);
    }
  }

  /** A row that expires is claimed less than once per lease between its first claim and its expiry. */
  lemma AttemptsFitTheLifetime(s: System, steps: seq<Step>, id: nat)
    requires id < |s.db.rows| && s.db.rows[id].attemptCount == 0 && s.db.rows[id].lastAttemptAt == None
    requires s.db.rows[id].expiresAt.Some? && TimelyRun(s, steps, id)
    ensures id < |Run(s, steps).db.rows|
    ensures var n, times := Run(s, steps).db.rows[id].attemptCount, ClaimTimes(s, steps, id);
            n == |times| && (n > 0 ==> (n - 1) * LEASE_TTL < s.db.rows[id].expiresAt.value - times[0])
  {
    ClaimsAreSpaced(s, steps, id);
    var times := ClaimTimes(s, steps, id);
    if times != [] {
      GapsAddUp(times, |times| - 1);
    }
  }

  // ---- when completions are timely ----

  /** No clock reading is more than lag behind the newest reading that has already taken effect. */
  predicate ReadingsLagAtMost(steps: seq<Step>, newest: int, lag: int)
    decreases |steps|
  {
    if steps == [] then true
    else if steps[0].RereadStep? then ReadingsLagAtMost(steps[1..], newest, lag)
    else
      var now := steps[0].now;
      newest - lag <= now && ReadingsLagAtMost(steps[1..], if now > newest then now else newest, lag)
  }

  /**
   * Readings that take effect in order, or out of order by no more than the shortest backoff
   * minus the lease (ten minutes), keep every completion timely.
   */
  lemma {:induction false} SmallLagIsTimely(s: System, steps: seq<Step>, id: nat, newest: int, lag: int)
    requires id < |s.db.rows| && lag <= 15 * MINUTE - LEASE_TTL
    requires s.db.rows[id].lastAttemptAt.Some? ==> s.db.rows[id].lastAttemptAt.value <= newest
    requires ReadingsLagAtMost(steps, newest, lag)
    ensures TimelyRun(s, steps, id)
    decreases |steps|
  {
    if steps != [] {
      var newest' := if !steps[0].RereadStep? && steps[0].now > newest then steps[0].now else newest;
      LastClaimStaysKnown(s, steps[0], id, newest');
      SmallLagIsTimely(Next(s, steps[0]), steps[1..], id, newest', lag);
    }
  }

  lemma LastClaimStaysKnown(s: System, step: Step, id: nat, newest: int)
    requires id < |s.db.rows|
    requires s.db.rows[id].lastAttemptAt.Some? ==> s.db.rows[id].lastAttemptAt.value <= newest
    requires step.ClaimStep? ==> step.now <= newest
    ensures id < |Next(s, step).db.rows|
    ensures var r' := Next(s, step).db.rows[id]; r'.lastAttemptAt.Some? ==> r'.lastAttemptAt.value <= newest
  {
  }

  /**
   * Exactly when one retry keeps the gap: the retry time is past the lease of the last claim,
   * or the row has expired by then.
   */
  lemma RetryKeepsTheGapExactlyWhenTimely(r: Row, claimed: int, attempt: nat, error: string, now: int)
    requires r.status == Processing && r.lastAttemptAt == Some(claimed)
    ensures var retry := now + Backoff(attempt);
            var r' := Unlock(r, Pending, error).(nextAttemptAt := retry);
            (forall t | Claimable(r', t) :: t >= claimed + LEASE_TTL)
            <==> (retry >= claimed + LEASE_TTL || (r.expiresAt.Some? && r.expiresAt.value <= retry))
  {
    var retry := now + Backoff(attempt);
    var r' := Unlock(r, Pending, error).(nextAttemptAt := retry);
    assert Claimable(r', retry) <==> !(r.expiresAt.Some? && r.expiresAt.value <= retry);
  }

  /**
   * Without that, the gap is lost: a worker that read its clock, stalled past its lease, and only
   * then wrote its retry lets its own process claim the row twice within one second.
   */
  lemma StalledReadingBreaksTheGap(row: Row)
    requires row.status == Pending && row.attemptCount == 0 && row.nextAttemptAt <= 0
    requires row.expiresAt == None && row.lockedUntil == None && row.lastAttemptAt == None
    ensures var s := System(Db([row], []), []);
            var steps := [ClaimStep(0, "p", 0), RereadStep(0), ClaimStep(0, "p", 10000),
                          FinishStep(0, PutBack("lookup failed"), 0), ClaimStep(0, "p", 10001)];
            Spaced(row) && ClaimTimes(s, steps, 0) == [0, 10000, 10001]
  {
  }
}
