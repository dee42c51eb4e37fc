/** A run without crashes in which a late failure makes a job wait longer than its attempts allow for. */
module IngestLateBackoff {
  import opened Wrappers
  import opened Claims
  import opened Ingest
  import opened IngestRuns
  import opened IngestLeases
  import opened IngestLateReports

  /** A set of worlds that no step of living workers leaves, timely or not. */
  ghost predicate Open(reach: World -> bool) {
    forall y, s: Step :: Valid(y) && reach(y) && !s.Crash? ==> reach(Next(y, s))
  }

  // -------------------------------------------------------------------------
  // Steps
  // -------------------------------------------------------------------------

  /** A worker reports a failure, whatever has become of the job. */
  lemma Fails(x: World, job: Job, photo: Photo, v: WorkerState, w: WorkerState, i: nat, until: int, error: string)
    requires i < 2 && Two(x, job, photo, [], FILLING, v, w) && [v, w][i] == OnIt(until, Fetching)
    requires job.event == 0 && job.attempts < job.maxAttempts
    ensures var y := Next(x, Fail(i, error));
            && Two(y, FinishJob(job, false, Some(error), x.now), photo.(status := Waiting), [], FILLING,
                   if i == 0 then Idle else v, if i == 0 then w else Idle)
            && y.waited == [x.waited[0] + Backoff(job.attempts)] && y.now == x.now && y.lease == x.lease
  {
    StepValid(x, Fail(i, error));
    assert Current(x, i) == 0;
    var after := FinishJob(job, false, Some(error), x.now);
    var db := Finish(x.db, 0, false, Some(error), 0, 0, x.now);
    assert db.jobs[0].state.Pending? && db.jobs[0].event == 0 && !db.Quiet(0);
    assert !Db(db.jobs, db.photos, db.faces, x.db.events).Quiet(0);
    assert db.events == [FILLING];
  }

  lemma Waits(x: World, job: Job, photo: Photo, seconds: nat)
    requires Two(x, job, photo, [], FILLING, Idle, Idle)
    ensures var y := Next(x, Tick(seconds));
            Two(y, job, photo, [], FILLING, Idle, Idle) && y.waited == x.waited && y.now == x.now + seconds && y.lease == x.lease
  {
    StepValid(x, Tick(seconds));
  }

  lemma Takes(x: World, job: Job, photo: Photo)
    requires Two(x, job, photo, [], FILLING, Idle, Idle) && Claimable(job, x.now)
    ensures var y := Next(x, Take(0, [0]));
            && Two(y, ClaimJob(job, 0, x.now, x.lease), photo, [], FILLING, OnIt(x.now + x.lease, Beating), Idle)
            && y.waited == x.waited && y.now == x.now && y.lease == x.lease
  {
    var batch: seq<nat> := [0];
    StepValid(x, Take(0, batch));
    assert 0 in batch && Enabled(x, Take(0, batch));
    assert seq(1, _ => x.now + x.lease) == [x.now + x.lease];
  }

  lemma BeatWaitsNothing(x: World, w: nat)
    requires Valid(x)
    ensures Next(x, Beat(w)).waited == x.waited && Next(x, Beat(w)).now == x.now && Next(x, Beat(w)).lease == x.lease
  {
  }

  // -------------------------------------------------------------------------
  // The run
  // -------------------------------------------------------------------------

  /** The job is back in the queue after so many claims and so many seconds of backoff. */
  ghost predicate InQueue(y: World, job: Job, photo: Photo, attempts: nat, waited: nat) {
    && Two(y, job, photo, [], FILLING, Idle, Idle)
    && job.state.Pending? && job.attempts == attempts && job.maxAttempts == DEFAULT_MAX_ATTEMPTS && job.event == 0
    && y.waited == [waited]
  }

  ghost predicate Queues(reach: World -> bool, attempts: nat, waited: nat) {
    exists y, job, photo :: reach(y) && InQueue(y, job, photo, attempts, waited)
  }

  lemma TakeAgain(y: World, job: Job, photo: Photo, attempts: nat, waited: nat) returns (steps: seq<Step>, z: World, claimed: Job)
    requires InQueue(y, job, photo, attempts, waited)
    ensures steps == [Tick(if job.runAfter > y.now then job.runAfter - y.now else 0), Take(0, [0])]
    ensures Valid(y) && z == Next(Next(y, steps[0]), steps[1])
    ensures Two(z, claimed, photo, [], FILLING, OnIt(z.now + z.lease, Beating), Idle) && z.waited == [waited]
    ensures claimed.state.Running? && claimed.lockedUntil == Some(z.now + z.lease)
    ensures claimed.attempts == attempts + 1 && claimed.maxAttempts == DEFAULT_MAX_ATTEMPTS && claimed.event == 0
  {
    var tick := Tick(if job.runAfter > y.now then job.runAfter - y.now else 0);
    Waits(y, job, photo, tick.seconds);
    var a := Next(y, tick);
    Takes(a, job, photo);
    steps, z, claimed := [tick, Take(0, [0])], Next(a, Take(0, [0])), ClaimJob(job, 0, a.now, a.lease);
  }

  lemma FailAgain(y: World, job: Job, photo: Photo, waited: nat, error: string) returns (z: World)
    requires Two(y, job, photo, [], FILLING, OnIt(y.now + y.lease, Beating), Idle) && y.waited == [waited]
    requires job.state.Running? && job.lockedUntil == Some(y.now + y.lease) && job.event == 0
    requires job.attempts < job.maxAttempts == DEFAULT_MAX_ATTEMPTS
    ensures Valid(y) && Valid(Next(y, Beat(0))) && z == Next(Next(y, Beat(0)), Fail(0, error))
    ensures InQueue(z, FinishJob(job, false, Some(error), y.now), photo.(status := Waiting), job.attempts, waited + Backoff(job.attempts))
  {
    Beats(y, job, photo, [], OnIt(y.now + y.lease, Beating), Idle, 0);
    BeatWaitsNothing(y, 0);
    var a := Next(y, Beat(0));
    Fails(a, job, photo, OnIt(y.now + y.lease, Fetching), Idle, 0, y.now + y.lease, error);
    z := Next(a, Fail(0, error));
  }

  /** Claimed once more, failed once more. */
  lemma Retry(reach: World -> bool, attempts: nat, waited: nat, error: string)
    requires Open(reach) && Queues(reach, attempts, waited) && attempts + 1 < DEFAULT_MAX_ATTEMPTS
    ensures Queues(reach, attempts + 1, waited + Backoff(attempts + 1))
  {
    var y, job, photo :| reach(y) && InQueue(y, job, photo, attempts, waited);
    var steps, a, claimed := TakeAgain(y, job, photo, attempts, waited);
    StepValid(y, steps[0]);
    assert reach(Next(y, steps[0])) && reach(a);
    FailedAgain(reach, a, claimed, photo, waited, error);
  }

  lemma FailedAgain(reach: World -> bool, y: World, job: Job, photo: Photo, waited: nat, error: string)
    requires Open(reach) && reach(y) && Two(y, job, photo, [], FILLING, OnIt(y.now + y.lease, Beating), Idle) && y.waited == [waited]
    requires job.state.Running? && job.lockedUntil == Some(y.now + y.lease) && job.event == 0
    requires job.attempts < job.maxAttempts == DEFAULT_MAX_ATTEMPTS
    ensures Queues(reach, job.attempts, waited + Backoff(job.attempts))
  {
    var z := FailAgain(y, job, photo, waited, error);
    assert reach(Next(y, Beat(0))) && reach(z);
  }

  /** The first worker is late and the second at work on the job it took over. */
  ghost predicate BothAtWork(y: World, lease: nat, later: int, key: string) {
    var began := later - lease - 1;
    At(y, later, lease)
    && Two(y, SecondClaim(began, lease), FirstPhoto(key), [], FILLING, OnIt(began + lease, Fetching), OnIt(later + lease, Fetching))
  }

  lemma BothBegin(reach: World -> bool, now: int, lease: nat, key: string)
    requires Open(reach) && Has(reach, now, lease, FirstJob(now), FirstPhoto(key), [], FILLING, Idle, Idle)
    ensures exists y :: reach(y) && BothAtWork(y, lease, now + lease + 1, key)
  {
    var later, first := now + lease + 1, OnIt(now + lease, Fetching);
    SlowAtOnce(reach, now, lease, key);
    TakenOver(reach, now, lease, later, FirstPhoto(key), [], first);
    HasBeat(reach, later, lease, SecondClaim(now, lease), FirstPhoto(key), [], first, OnIt(later + lease, Beating), 1);
    var y :| reach(y) && At(y, later, lease)
      && Two(y, SecondClaim(now, lease), FirstPhoto(key), [], FILLING, first, OnIt(later + lease, Fetching));
    assert BothAtWork(y, lease, later, key);
  }

  lemma BothFail(reach: World -> bool, y: World, lease: nat, later: int, key: string, error: string)
    requires Open(reach) && reach(y) && BothAtWork(y, lease, later, key)
    ensures Queues(reach, 2, Backoff(2) + Backoff(2))
  {
    var began := later - lease - 1;
    var first, was := OnIt(began + lease, Fetching), SecondClaim(began, lease);
    var job := FinishJob(was, false, Some(error), later);
    Fails(y, was, FirstPhoto(key), first, OnIt(later + lease, Fetching), 1, later + lease, error);
    var a := Next(y, Fail(1, error));
    Fails(a, job, FirstPhoto(key), first, Idle, 0, began + lease, error);
    var z := Next(a, Fail(0, error));
    assert reach(a) && reach(z);
    assert InQueue(z, FinishJob(job, false, Some(error), later), FirstPhoto(key), 2, Backoff(2) + Backoff(2));
  }

  /** The first worker is late, the second fails, and then the first fails too. */
  lemma TwoFailures(reach: World -> bool, now: int, lease: nat, key: string, error: string)
    requires Open(reach) && Has(reach, now, lease, FirstJob(now), FirstPhoto(key), [], FILLING, Idle, Idle)
    ensures Queues(reach, 2, Backoff(2) + Backoff(2))
  {
    BothBegin(reach, now, lease, key);
    var y :| reach(y) && BothAtWork(y, lease, now + lease + 1, key);
    BothFail(reach, y, lease, now + lease + 1, key, error);
  }

  lemma Powers()
    ensures Backoff(2) == 4 && Backoff(3) == 8 && Backoff(4) == 16 && Pow2(5) == 32
  {
    assert Pow2(2) == 4 && Pow2(3) == 8 && Pow2(4) == 16;
  }

  ghost predicate NobodyCrashes(steps: seq<Step>) {
    forall k :: 0 <= k < |steps| ==> !steps[k].Crash?
  }

  ghost predicate Reached(x: World, y: World) {
    Valid(x) && exists steps :: NobodyCrashes(steps) && Run(x, steps) == y
  }

  lemma ReachedOpen(x: World, y: World, s: Step)
    requires Reached(x, y) && Valid(y) && !s.Crash?
    ensures Reached(x, Next(y, s))
  {
    var steps :| NobodyCrashes(steps) && Run(x, steps) == y;
    assert (steps + [s])[..|steps|] == steps;
    assert NobodyCrashes(steps + [s]) && Run(x, steps + [s]) == Next(y, s);
  }

  /** Nobody crashes, and the job waits 4 + 4 + 8 + 16 seconds where five attempts allow for 30. */
  lemma LateFailureWaitsLonger(x: World, key: string, error: string) returns (steps: seq<Step>)
    requires Initial(x) && |x.db.events| == 1 && |x.workers| == 2
    ensures NobodyCrashes(steps)
    ensures var y := Run(x, steps);
            |y.db.jobs| == |y.waited| == 1 && y.db.jobs[0].maxAttempts == DEFAULT_MAX_ATTEMPTS
            && y.waited[0] == 32 && y.waited[0] + 2 > Pow2(DEFAULT_MAX_ATTEMPTS)
  {
    var reach := y => Reached(x, y);
    forall y, s: Step | Valid(y) && reach(y) && !s.Crash? ensures reach(Next(y, s)) {
      ReachedOpen(x, y, s);
    }
    assert NobodyCrashes([]) && Run(x, []) == x;
    HasStart(reach, x, key);
    TwoFailures(reach, x.now, x.lease, key, error);
    Powers();
    Retry(reach, 2, 8, error);
    Retry(reach, 3, 16, error);
    var y, job, photo :| reach(y) && InQueue(y, job, photo, 4, 32);
    steps :| NobodyCrashes(steps) && Run(x, steps) == y;
  }
}
