/** When a queued row can be claimed again: not under a lease, and not before a failure's backoff is over. */
module StorageGcWaits {
  import opened Wrappers
  import opened Claims
  import opened StorageGc
  import opened StorageGcRuns

  /** The step claims row `id`. */
  ghost predicate Takes(x: World, s: Step, id: nat) {
    match s
    case Take(_, rows) => Enabled(x, s) && id in rows
    case _ => false
  }

  /** Step `k` of the run claims row `id`. */
  ghost predicate TakesAt(x: World, steps: seq<Step>, k: nat, id: nat)
    requires k < |steps|
  {
    Takes(Run(x, steps[..k]), steps[k], id)
  }

  /** The step reports the row, done or failed, or parks it. */
  ghost predicate Reports(x: World, s: Step, id: nat) {
    (s.ReportDone? || s.ReportFailed? || s.Park?) && Enabled(x, s) && Current(x, s.w) == id
  }

  /** Step `k` reports a failure of the row with attempts to spare. */
  ghost predicate FailsAt(x: World, steps: seq<Step>, k: nat, id: nat)
    requires k < |steps|
  {
    var a := Run(x, steps[..k]);
    steps[k].ReportFailed? && Reports(a, steps[k], id) && id < |a.db.queue| && a.db.queue[id].attempts < a.db.queue[id].maxAttempts
  }

  lemma RunSplit(x: World, steps: seq<Step>, k: nat)
    requires 0 < k <= |steps|
    ensures Run(x, steps[..k]) == Next(Run(x, steps[..k - 1]), steps[k - 1])
  {
    assert steps[..k][..k - 1] == steps[..k - 1];
  }

  lemma StepAfter(x: World, steps: seq<Step>, i: nat)
    requires i < |steps|
    ensures Run(x, steps[..i + 1]) == Next(Run(x, steps[..i]), steps[i])
  {
    assert steps[..i + 1][..i] == steps[..i];
  }

  /** Retention leaves the rows it finds alone. */
  lemma {:induction false} QueueKept(db: Db, ids: seq<string>, now: int)
    requires DistinctIn(ids, db.events)
    ensures db.queue <= RetireAll(db, ids, now).queue
    decreases |ids|
  {
    if ids != [] {
      QueueKept(db, ids[..|ids| - 1], now);
    }
  }

  // -------------------------------------------------------------------------
  // Leases
  // -------------------------------------------------------------------------

  ghost predicate Leased(x: World, id: nat, until: int) {
    id < |x.db.queue| && (x.now > until || x.db.queue[id].lockedUntil == Some(until))
  }

  lemma StepLeased(x: World, s: Step, id: nat, until: int)
    requires Leased(x, id, until) && !Reports(x, s, id)
    ensures Leased(Next(x, s), id, until)
  {
    if s.Retain? && Enabled(x, s) {
      QueueKept(x.db, s.ids, x.now);
    }
  }

  ghost predicate Unreported(x: World, steps: seq<Step>, i: nat, k: nat, id: nat)
    requires k <= |steps|
  {
    forall n :: i <= n < k ==> !Reports(Run(x, steps[..n]), steps[n], id)
  }

  lemma RowsLeased(queue: seq<Row>, rows: seq<nat>, now: int, lease: nat, id: nat)
    requires id in rows && id < |queue|
    ensures ClaimRows(queue, rows, now, lease)[id].lockedUntil == Some(now + lease)
  {
  }

  lemma TakeLeases(x: World, s: Step, id: nat)
    requires Takes(x, s, id)
    ensures Leased(Next(x, s), id, x.now + x.lease)
  {
    match s
    case Take(w, rows) => RowsLeased(x.db.queue, rows, x.now, x.lease, id);
    case _ =>
  }

  lemma {:induction false} RunLeased(x: World, steps: seq<Step>, i: nat, k: nat, id: nat, until: int)
    requires i <= k <= |steps| && Leased(Run(x, steps[..i]), id, until) && Unreported(x, steps, i, k, id)
    ensures Leased(Run(x, steps[..k]), id, until)
    decreases k
  {
    if i < k {
      RunLeased(x, steps, i, k - 1, id, until);
      RunSplit(x, steps, k);
      StepLeased(Run(x, steps[..k - 1]), steps[k - 1], id, until);
    }
  }

  lemma TakenUnleased(x: World, s: Step, id: nat, until: int)
    requires Takes(x, s, id) && Leased(x, id, until)
    ensures x.now > until
  {
  }

  /** Until it is reported, a claimed row is not claimed again before its lease has run out, by anybody. */
  lemma LeaseExcludes(x: World, steps: seq<Step>, i: nat, k: nat, id: nat)
    requires i < k < |steps| && TakesAt(x, steps, i, id) && TakesAt(x, steps, k, id)
    requires Unreported(x, steps, i + 1, k, id)
    ensures var a := Run(x, steps[..i]); Run(x, steps[..k]).now > a.now + a.lease
  {
    var a := Run(x, steps[..i]);
    var until := a.now + a.lease;
    TakeLeases(a, steps[i], id);
    StepAfter(x, steps, i);
    RunLeased(x, steps, i + 1, k, id, until);
    TakenUnleased(Run(x, steps[..k]), steps[k], id, until);
  }

  // -------------------------------------------------------------------------
  // Backoff
  // -------------------------------------------------------------------------

  ghost predicate PutOff(x: World, id: nat, attempts: nat, due: int) {
    && id < |x.db.queue|
    && (x.now >= due || (x.db.queue[id].attempts == attempts && x.db.queue[id].runAfter >= due && due <= x.now + Backoff(attempts)))
  }

  lemma StepPutsOff(x: World, s: Step, id: nat, attempts: nat, due: int)
    requires PutOff(x, id, attempts, due)
    ensures PutOff(Next(x, s), id, attempts, due)
  {
    if s.Retain? && Enabled(x, s) {
      QueueKept(x.db, s.ids, x.now);
    }
  }

  lemma {:induction false} RunPutsOff(x: World, steps: seq<Step>, i: nat, k: nat, id: nat, attempts: nat, due: int)
    requires i <= k <= |steps| && PutOff(Run(x, steps[..i]), id, attempts, due)
    ensures PutOff(Run(x, steps[..k]), id, attempts, due)
    decreases k
  {
    if i < k {
      RunPutsOff(x, steps, i, k - 1, id, attempts, due);
      RunSplit(x, steps, k);
      StepPutsOff(Run(x, steps[..k - 1]), steps[k - 1], id, attempts, due);
    }
  }

  lemma FailurePutsOff(x: World, s: Step, id: nat)
    requires s.ReportFailed? && Reports(x, s, id) && id < |x.db.queue| && x.db.queue[id].attempts < x.db.queue[id].maxAttempts
    ensures PutOff(Next(x, s), id, x.db.queue[id].attempts, x.now + Backoff(x.db.queue[id].attempts))
  {
  }

  /** After a failure with attempts to spare, and whatever happens then, nobody claims the row before the power
      of two of its attempts, an hour at most, has passed. */
  lemma NoClaimBeforeBackoff(x: World, steps: seq<Step>, i: nat, k: nat, id: nat)
    requires i < k < |steps| && FailsAt(x, steps, i, id) && TakesAt(x, steps, k, id)
    ensures var a := Run(x, steps[..i]);
            Run(x, steps[..k]).now >= a.now + if Pow2(a.db.queue[id].attempts) <= 3600 then Pow2(a.db.queue[id].attempts) else 3600
  {
    var a := Run(x, steps[..i]);
    var attempts := a.db.queue[id].attempts;
    FailurePutsOff(a, steps[i], id);
    StepAfter(x, steps, i);
    RunPutsOff(x, steps, i + 1, k, id, attempts, a.now + Backoff(attempts));
  }
}
