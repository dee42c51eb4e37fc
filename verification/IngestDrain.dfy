/** How often a job can be claimed, how long it can be put off, and whose face rows it leaves. */
module IngestDrain {
  import opened Wrappers
  import opened Claims
  import opened Ingest
  import opened IngestRuns
  import opened IngestLeases
  import opened IngestAlbum

  // -------------------------------------------------------------------------
  // How often a job is claimed
  // -------------------------------------------------------------------------

  /** Never claimed more often than allowed, less if it waits, exactly that often if it failed. */
  ghost predicate WithinAttempts(j: Job) {
    && 1 <= j.maxAttempts && j.attempts <= j.maxAttempts
    && (j.state.Pending? ==> j.attempts < j.maxAttempts)
    && (j.state.Failed? ==> j.attempts == j.maxAttempts)
  }

  ghost predicate AllWithinAttempts(x: World) {
    forall j :: 0 <= j < |x.db.jobs| ==> WithinAttempts(x.db.jobs[j])
  }

  /** The step claims no job whose attempts are spent. */
  ghost predicate Spares(x: World, s: Step) {
    s.Take? && Enabled(x, s) ==> forall k :: 0 <= k < |s.batch| ==> x.db.jobs[s.batch[k]].attempts < x.db.jobs[s.batch[k]].maxAttempts
  }

  ghost predicate SparingRun(x: World, steps: seq<Step>)
    requires Valid(x)
  {
    steps == [] ||
    (SparingRun(x, steps[..|steps| - 1]) && Spares(Run(x, steps[..|steps| - 1]), steps[|steps| - 1]))
  }

  /** A claim keeps the bound exactly when none of its jobs has spent its attempts; one that has is a
      running job taken over. */
  lemma TakeWithinIff(x: World, w: nat, batch: seq<nat>)
    requires Valid(x) && AllWithinAttempts(x) && Enabled(x, Take(w, batch))
    ensures AllWithinAttempts(DoTake(x, w, batch)) <==> Spares(x, Take(w, batch))
    ensures forall k :: 0 <= k < |batch| && x.db.jobs[batch[k]].attempts >= x.db.jobs[batch[k]].maxAttempts ==>
      x.db.jobs[batch[k]].state.Running?
  {
    var y := DoTake(x, w, batch);
    forall k | 0 <= k < |batch|
      ensures WithinAttempts(x.db.jobs[batch[k]])
      ensures y.db.jobs[batch[k]] == ClaimJob(x.db.jobs[batch[k]], w, x.now, x.lease)
    {
      assert batch[k] in batch;
    }
    if AllWithinAttempts(y) {
      forall k | 0 <= k < |batch| ensures x.db.jobs[batch[k]].attempts < x.db.jobs[batch[k]].maxAttempts {
        assert WithinAttempts(y.db.jobs[batch[k]]);
      }
    }
  }

  lemma FinishWithin(x: World, w: nat, ok: bool, error: Option<string>, indexed: nat, rejected: nat)
    requires Valid(x) && AllWithinAttempts(x) && OnPhoto(x, w)
    ensures AllWithinAttempts(DoFinish(x, w, ok, error, indexed, rejected))
  {
    assert WithinAttempts(x.db.jobs[Current(x, w)]);
  }

  lemma StepWithin(x: World, s: Step)
    requires Valid(x) && AllWithinAttempts(x)
    ensures AllWithinAttempts(Next(x, s)) <==> Spares(x, s)
  {
    if Enabled(x, s) {
      match s
      case Take(w, batch) => TakeWithinIff(x, w, batch);
      case Succeed(w) => FinishWithin(x, w, true, None, x.workers[w].phase.indexed, x.workers[w].phase.rejected);
      case Fail(w, error) => FinishWithin(x, w, false, Some(error), 0, 0);
      case _ =>
        var y := Next(x, s);
        forall j | 0 <= j < |y.db.jobs| ensures WithinAttempts(y.db.jobs[j]) {
          assert j < |x.db.jobs| ==> WithinAttempts(x.db.jobs[j]);
        }
    }
  }

  ghost predicate AlwaysWithin(x: World, steps: seq<Step>)
    requires Valid(x)
  {
    AllWithinAttempts(Run(x, steps)) && (steps == [] || AlwaysWithin(x, steps[..|steps| - 1]))
  }

  /** Throughout a run -- crashes, takeovers and late reports included -- no job is claimed more often than
      allowed, if and only if no claim takes over a job whose attempts are spent. */
  lemma {:induction false} RunWithinIff(x: World, steps: seq<Step>)
    requires Initial(x)
    ensures AlwaysWithin(x, steps) <==> SparingRun(x, steps)
    decreases |steps|
  {
    if steps != [] {
      var init := steps[..|steps| - 1];
      RunWithinIff(x, init);
      if AllWithinAttempts(Run(x, init)) {
        StepWithin(Run(x, init), steps[|steps| - 1]);
      }
    }
  }

  /** No lease is ever taken over: claims find only pending jobs. */
  ghost predicate FirstHand(x: World, s: Step) {
    s.Take? && Enabled(x, s) ==> forall k :: 0 <= k < |s.batch| ==> x.db.jobs[s.batch[k]].state.Pending?
  }

  ghost predicate FirstHandRun(x: World, steps: seq<Step>)
    requires Valid(x)
  {
    steps == [] ||
    (FirstHandRun(x, steps[..|steps| - 1]) && FirstHand(Run(x, steps[..|steps| - 1]), steps[|steps| - 1]))
  }

  /** Runs without takeovers are among those that keep the bound. */
  lemma {:induction false} FirstHandSpares(x: World, steps: seq<Step>)
    requires Initial(x) && FirstHandRun(x, steps)
    ensures SparingRun(x, steps)
    decreases |steps|
  {
    if steps != [] {
      var init, s := steps[..|steps| - 1], steps[|steps| - 1];
      FirstHandSpares(x, init);
      RunWithinIff(x, init);
    }
  }

  // -------------------------------------------------------------------------
  // Backoff
  // -------------------------------------------------------------------------

  /** What the step adds to a job's waiting when it reports a failure of a job that is not running. */
  ghost function LateBackoff(x: World, s: Step, j: nat): (r: nat)
    requires Valid(x)
  {
    if s.Fail? && Enabled(x, s) && Current(x, s.w) == j && j < |x.db.jobs| && !x.db.jobs[j].state.Running?
       && x.db.jobs[j].attempts < x.db.jobs[j].maxAttempts
    then Backoff(x.db.jobs[j].attempts) else 0
  }

  ghost function LateBackoffs(x: World, steps: seq<Step>, j: nat): (r: nat)
    requires Valid(x)
  {
    if steps == [] then 0
    else LateBackoffs(x, steps[..|steps| - 1], j) + LateBackoff(Run(x, steps[..|steps| - 1]), steps[|steps| - 1], j)
  }

  /** A job's waiting, late reports apart, is within the geometric sum of what its claims may cost. */
  ghost predicate Within(j: Job, waited: int) {
    && 1 <= j.maxAttempts && waited + 2 <= Pow2(j.maxAttempts)
    && (j.attempts < j.maxAttempts ==> waited + 2 <= Pow2(if j.state.Running? then j.attempts else j.attempts + 1))
  }

  lemma ClaimWithin(j: Job, waited: int, w: Worker, now: int, lease: nat)
    requires Within(j, waited)
    ensures Within(ClaimJob(j, w, now, lease), waited)
  {
    if j.attempts < j.maxAttempts {
      Pow2Monotone(if j.state.Running? then j.attempts else j.attempts + 1, j.attempts + 1);
    }
  }

  /** A failure of a running job is paid for by its claim, any other by the late account. */
  lemma FailureWithin(j: Job, waited: int, error: Option<string>, now: int)
    requires Within(j, waited)
    ensures Within(FinishJob(j, false, error, now),
                   if j.state.Running? && Outcome(j, false).Pending? then waited + Backoff(j.attempts) else waited)
  {
    if j.attempts < j.maxAttempts {
      Pow2Monotone(j.attempts + 1, j.maxAttempts);
    }
  }

  lemma SuccessWithin(j: Job, waited: int, now: int)
    requires Within(j, waited)
    ensures Within(FinishJob(j, true, None, now), waited)
  {
    if j.attempts < j.maxAttempts {
      Pow2Monotone(j.attempts, j.attempts + 1);
    }
  }

  lemma ReportWithinBudget(x: World, w: nat, ok: bool, error: Option<string>, indexed: nat, rejected: nat, j: nat, late: nat)
    requires Valid(x) && OnPhoto(x, w) && j < |x.db.jobs| && Within(x.db.jobs[j], x.waited[j] - late) && (ok ==> error == None)
    ensures var y := DoFinish(x, w, ok, error, indexed, rejected);
            var job := x.db.jobs[j];
            var excused := !ok && Current(x, w) == j && !job.state.Running? && job.attempts < job.maxAttempts;
            && j < |y.db.jobs| && j < |y.waited|
            && Within(y.db.jobs[j], y.waited[j] - late - if excused then Backoff(job.attempts) else 0)
  {
    var waited := x.waited[j] - late;
    if ok {
      SuccessWithin(x.db.jobs[j], waited, x.now);
    } else {
      FailureWithin(x.db.jobs[j], waited, error, x.now);
    }
  }

  lemma TakeWithinBudget(x: World, w: nat, batch: seq<nat>, j: nat, late: nat)
    requires Valid(x) && w < |x.workers| && j < |x.db.jobs| && Within(x.db.jobs[j], x.waited[j] - late)
    ensures var y := DoTake(x, w, batch); j < |y.db.jobs| && j < |y.waited| && Within(y.db.jobs[j], y.waited[j] - late)
  {
    ClaimWithin(x.db.jobs[j], x.waited[j] - late, w, x.now, x.lease);
  }

  /** Steps that neither claim nor report change at most a job's lease. */
  lemma OtherRow(x: World, s: Step, j: nat)
    requires Valid(x) && !s.Take? && !s.Succeed? && !s.Fail? && j < |x.db.jobs|
    ensures var y := Next(x, s);
            && j < |y.db.jobs| && j < |y.waited| && y.waited[j] == x.waited[j]
            && y.db.jobs[j] == x.db.jobs[j].(lockedUntil := y.db.jobs[j].lockedUntil)
  {
  }

  /** One step's effect on one job and on what it has waited, late reports apart. */
  lemma StepWithinBudget(x: World, s: Step, j: nat, late: nat)
    requires Valid(x) && Enabled(x, s) && j < |x.db.jobs| && Within(x.db.jobs[j], x.waited[j] - late)
    ensures var y := Next(x, s);
            j < |y.db.jobs| && j < |y.waited| && Within(y.db.jobs[j], y.waited[j] - late - LateBackoff(x, s, j))
  {
    match s
    case Take(w, batch) => TakeWithinBudget(x, w, batch, j, late);
    case Succeed(w) => ReportWithinBudget(x, w, true, None, x.workers[w].phase.indexed, x.workers[w].phase.rejected, j, late);
    case Fail(w, error) => ReportWithinBudget(x, w, false, Some(error), 0, 0, j, late);
    case _ => OtherRow(x, s, j);
  }

  lemma ArrivalWithinBudget(x: World, s: Step, j: nat)
    requires Valid(x) && Enabled(x, s) && |x.db.jobs| <= j < |Next(x, s).db.jobs|
    ensures j < |Next(x, s).waited| && Within(Next(x, s).db.jobs[j], Next(x, s).waited[j]) && LateBackoff(x, s, j) == 0
  {
    StepValid(x, s);
  }

  lemma {:induction false} RunWithinBudget(x: World, steps: seq<Step>, j: nat)
    requires Initial(x) && j < |Run(x, steps).db.jobs|
    ensures j < |Run(x, steps).waited|
    ensures Within(Run(x, steps).db.jobs[j], Run(x, steps).waited[j] - LateBackoffs(x, steps, j))
    decreases |steps|
  {
    if steps != [] {
      var init, s := steps[..|steps| - 1], steps[|steps| - 1];
      var a := Run(x, init);
      if j < |a.db.jobs| {
        RunWithinBudget(x, init, j);
        if Enabled(a, s) {
          StepWithinBudget(a, s, j, LateBackoffs(x, init, j));
        }
      } else {
        NothingLateYet(x, init, j);
        ArrivalWithinBudget(a, s, j);
      }
    }
  }

  lemma {:induction false} NothingLateYet(x: World, steps: seq<Step>, j: nat)
    requires Initial(x) && j >= |Run(x, steps).db.jobs|
    ensures LateBackoffs(x, steps, j) == 0
    decreases |steps|
  {
    if steps != [] {
      StepValid(Run(x, steps[..|steps| - 1]), steps[|steps| - 1]);
      NothingLateYet(x, steps[..|steps| - 1], j);
    }
  }

  /** In every run -- crashes, takeovers, late reports, claims beyond the allowed -- a job's backoffs together
      are within 2^maxAttempts - 2 seconds, not counting those of failures reported when it was not running. */
  lemma BackoffsAccounted(x: World, steps: seq<Step>, j: nat)
    requires Initial(x) && j < |Run(x, steps).db.jobs|
    ensures j < |Run(x, steps).waited| && 0 <= Run(x, steps).db.jobs[j].maxAttempts
    ensures Run(x, steps).waited[j] + 2 <= Pow2(Run(x, steps).db.jobs[j].maxAttempts) + LateBackoffs(x, steps, j)
  {
    RunWithinBudget(x, steps, j);
  }

  lemma {:induction false} RunningIsNeverLate(x: World, steps: seq<Step>, j: nat)
    requires Valid(x) && RunReportsRunning(x, steps)
    ensures LateBackoffs(x, steps, j) == 0
    decreases |steps|
  {
    if steps != [] {
      RunningIsNeverLate(x, steps[..|steps| - 1], j);
    }
  }

  /** So in every run that reports running jobs only, all of them are. */
  lemma DrainBound(x: World, steps: seq<Step>, j: nat)
    requires Initial(x) && RunReportsRunning(x, steps) && j < |Run(x, steps).db.jobs|
    ensures j < |Run(x, steps).waited| && 0 <= Run(x, steps).db.jobs[j].maxAttempts
    ensures Run(x, steps).waited[j] + 2 <= Pow2(Run(x, steps).db.jobs[j].maxAttempts)
  {
    BackoffsAccounted(x, steps, j);
    RunningIsNeverLate(x, steps, j);
  }

  /** Workers that report within their leases are such runs. */
  lemma TimelyDrainBound(x: World, steps: seq<Step>, j: nat)
    requires Initial(x) && TimelyRun(x, steps) && j < |Run(x, steps).db.jobs|
    ensures j < |Run(x, steps).waited| && 0 <= Run(x, steps).db.jobs[j].maxAttempts
    ensures Run(x, steps).waited[j] + 2 <= Pow2(Run(x, steps).db.jobs[j].maxAttempts)
  {
    TimelyReportsRunning(x, steps);
    DrainBound(x, steps, j);
  }

  // -------------------------------------------------------------------------
  // No claim before the backoff is over
  // -------------------------------------------------------------------------

  /** Until `due` the job's row keeps every claim away, and any later report puts it off no less. */
  ghost predicate PutOff(x: World, j: nat, attempts: nat, due: int) {
    && j < |x.db.jobs|
    && (x.now >= due || (x.db.jobs[j].attempts == attempts && x.db.jobs[j].runAfter >= due && due <= x.now + Backoff(attempts)))
  }

  lemma ReportPutsOff(x: World, w: nat, ok: bool, error: Option<string>, indexed: nat, rejected: nat, j: nat, attempts: nat, due: int)
    requires Valid(x) && OnPhoto(x, w) && PutOff(x, j, attempts, due)
    ensures PutOff(DoFinish(x, w, ok, error, indexed, rejected), j, attempts, due)
  {
  }

  lemma StepPutsOff(x: World, s: Step, j: nat, attempts: nat, due: int)
    requires Valid(x) && PutOff(x, j, attempts, due)
    ensures PutOff(Next(x, s), j, attempts, due)
  {
    if Enabled(x, s) {
      match s
      case Succeed(w) => ReportPutsOff(x, w, true, None, x.workers[w].phase.indexed, x.workers[w].phase.rejected, j, attempts, due);
      case Fail(w, error) => ReportPutsOff(x, w, false, Some(error), 0, 0, j, attempts, due);
      case _ =>
    }
  }

  lemma FailurePutsOff(x: World, w: nat, error: string)
    requires Valid(x) && Enabled(x, Fail(w, error))
    requires var j := x.db.jobs[Current(x, w)]; j.attempts < j.maxAttempts
    ensures var attempts := x.db.jobs[Current(x, w)].attempts;
            PutOff(Next(x, Fail(w, error)), Current(x, w), attempts, x.now + Backoff(attempts))
  {
  }

  lemma {:induction false} RunPutsOff(x: World, later: seq<Step>, j: nat, attempts: nat, due: int)
    requires Valid(x) && PutOff(x, j, attempts, due)
    ensures PutOff(Run(x, later), j, attempts, due)
    decreases |later|
  {
    if later != [] {
      RunPutsOff(x, later[..|later| - 1], j, attempts, due);
      StepPutsOff(Run(x, later[..|later| - 1]), later[|later| - 1], j, attempts, due);
    }
  }

  /** After a failure with attempts to spare the job can be claimed again exactly from the power of two of its
      attempts, ten minutes at most, after the report. */
  lemma DueAgainIff(x: World, w: nat, error: string, now: int)
    requires Valid(x) && Enabled(x, Fail(w, error))
    requires var j := x.db.jobs[Current(x, w)]; j.attempts < j.maxAttempts
    ensures var id := Current(x, w);
            var job := Next(x, Fail(w, error)).db.jobs[id];
            Claimable(job, now) <==> now >= x.now + if Pow2(job.attempts) <= 600 then Pow2(job.attempts) else 600
  {
  }

  lemma ClaimedIsDue(x: World, w: nat, batch: seq<nat>, j: nat, attempts: nat, due: int)
    requires Enabled(x, Take(w, batch)) && j in batch && PutOff(x, j, attempts, due)
    ensures x.now >= due
  {
    var n :| 0 <= n < |batch| && batch[n] == j;
  }

  lemma OneStep(x: World, s: Step)
    requires Valid(x)
    ensures Run(x, [s]) == Next(x, s)
  {
    assert [s][..0] == [];
  }

  /** And whatever happens then -- other claims, crashes, late reports of the same job -- nobody claims it sooner. */
  lemma NoClaimBeforeBackoff(x: World, w: nat, error: string, later: seq<Step>, v: nat, batch: seq<nat>)
    requires Valid(x) && Enabled(x, Fail(w, error))
    requires var j := x.db.jobs[Current(x, w)]; j.attempts < j.maxAttempts
    requires Enabled(Run(Run(x, [Fail(w, error)]), later), Take(v, batch)) && Current(x, w) in batch
    ensures var attempts := x.db.jobs[Current(x, w)].attempts;
            Run(Run(x, [Fail(w, error)]), later).now >= x.now + if Pow2(attempts) <= 600 then Pow2(attempts) else 600
  {
    var id := Current(x, w);
    var attempts := x.db.jobs[id].attempts;
    var failed := Run(x, [Fail(w, error)]);
    OneStep(x, Fail(w, error));
    FailurePutsOff(x, w, error);
    RunPutsOff(failed, later, id, attempts, x.now + Backoff(attempts));
    ClaimedIsDue(Run(failed, later), v, batch, id, attempts, x.now + Backoff(attempts));
  }

  // -------------------------------------------------------------------------
  // Workers that die: no bound on claims
  // -------------------------------------------------------------------------

  /** A world with one event, one idle worker, and job 0 claimable again. */
  ghost predicate Orphaned(x: World, n: nat) {
    && Valid(x) && |x.db.events| == |x.workers| == 1 && x.workers[0].Idle? && |x.db.jobs| == 1
    && x.db.jobs[0].attempts == n && Claimable(x.db.jobs[0], x.now)
  }

  /** Claimed for the n-th time, and its worker has just been killed. */
  ghost predicate Abandoned(x: World, n: nat) {
    && Valid(x) && |x.db.events| == |x.workers| == 1 && x.workers[0].Idle? && |x.db.jobs| == 1
    && x.db.jobs[0].attempts == n && x.db.jobs[0].state.Running?
    && x.db.jobs[0].runAfter <= x.now && x.db.jobs[0].lockedUntil == Some(x.now + x.lease)
  }

  lemma ClaimAndDie(x: World, n: nat)
    requires Orphaned(x, n)
    ensures Valid(Next(x, Take(0, [0]))) && Abandoned(Next(Next(x, Take(0, [0])), Crash(0)), n + 1)
  {
    StepValid(x, Take(0, [0]));
    ClaimOnce(x, n);
    CrashAfter(Next(x, Take(0, [0])), n + 1);
  }

  /** Claimed for the n-th time, and its worker at work. */
  ghost predicate Taken(x: World, n: nat) {
    && |x.db.events| == |x.workers| == 1 && x.workers[0].Busy? && |x.db.jobs| == 1
    && x.db.jobs[0].attempts == n && x.db.jobs[0].state.Running?
    && x.db.jobs[0].runAfter <= x.now && x.db.jobs[0].lockedUntil == Some(x.now + x.lease)
  }

  lemma ClaimOnce(x: World, n: nat)
    requires Orphaned(x, n)
    ensures Taken(Next(x, Take(0, [0])), n + 1)
  {
    CanClaim(x, n);
    TakenRow(x, [0], n);
  }

  lemma CanClaim(x: World, n: nat)
    requires Orphaned(x, n)
    ensures Next(x, Take(0, [0])) == DoTake(x, 0, [0])
  {
    assert Enabled(x, Take(0, [0]));
  }

  lemma TakenRow(x: World, batch: seq<nat>, n: nat)
    requires |x.db.jobs| == |x.workers| == |x.db.events| == 1 && batch == [0]
    requires x.db.jobs[0].attempts == n && Claimable(x.db.jobs[0], x.now)
    ensures Taken(DoTake(x, 0, batch), n + 1)
  {
    assert 0 in batch;
  }

  lemma CrashAfter(x: World, n: nat)
    requires Valid(x) && Taken(x, n)
    ensures Abandoned(Next(x, Crash(0)), n)
  {
    StepValid(x, Crash(0));
  }

  lemma LeaseRunsOut(x: World, n: nat)
    requires Abandoned(x, n)
    ensures Orphaned(Next(x, Tick(x.lease + 1)), n)
  {
    StepValid(x, Tick(x.lease + 1));
  }

  lemma RunSnoc(x: World, steps: seq<Step>, s: Step)
    requires Valid(x)
    ensures Run(x, steps + [s]) == Next(Run(x, steps), s)
  {
    assert (steps + [s])[..|steps|] == steps;
  }

  /** The claim does not look at `max_attempts`: workers that die can claim a job any number of
      times. */
  lemma {:induction false} ClaimsUnbounded(x: World, key: string, n: nat) returns (steps: seq<Step>)
    requires Initial(x) && |x.db.events| == |x.workers| == 1
    ensures Orphaned(Run(x, steps), n)
  {
    if n == 0 {
      steps := [] + [Deliver(0, key)];
      RunSnoc(x, [], Deliver(0, key));
    } else {
      var before := ClaimsUnbounded(x, key, n - 1);
      var wait := Tick(Run(x, before).lease + 1);
      ClaimAndDie(Run(x, before), n - 1);
      RunSnoc(x, before, Take(0, [0]));
      RunSnoc(x, before + [Take(0, [0])], Crash(0));
      RunSnoc(x, before + [Take(0, [0])] + [Crash(0)], wait);
      StepValid(Run(x, before), Take(0, [0]));
      StepValid(Next(Run(x, before), Take(0, [0])), Crash(0));
      LeaseRunsOut(Run(x, before + [Take(0, [0])] + [Crash(0)]), n);
      steps := before + [Take(0, [0])] + [Crash(0)] + [wait];
    }
  }
}
