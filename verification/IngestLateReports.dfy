/** Runs in which a report comes too late: a lapsed lease, a second claim, and then the first worker's word. */
module IngestLateReports {
  import opened Wrappers
  import opened StorageKeys
  import opened Ingest
  import opened IngestRuns
  import opened IngestLeases
  import opened IngestAlbum

  /** One photo of one event, and two workers. */
  ghost predicate Two(x: World, job: Job, photo: Photo, rows: seq<Face>, ev: Event, v: WorkerState, w: WorkerState) {
    Valid(x) && x.db == Db([job], [photo], [rows], [ev]) && x.workers == [v, w]
  }

  function FirstJob(now: int): Job { Job(0, 0, Pending, 0, DEFAULT_MAX_ATTEMPTS, now, None, None, None) }

  function FirstPhoto(key: string): Photo { Photo(0, key, Waiting, 0, 0, None, None) }

  function WithPreview(key: string): Photo { WithDerivatives(FirstPhoto(key), PreviewKey(key), ThumbKey(key)) }

  function OnIt(until: int, phase: Phase): WorkerState { Busy([0], 0, [until], phase) }

  const FILLING := Event(Indexing, 1, 0, 0)

  // -------------------------------------------------------------------------
  // Step by step
  // -------------------------------------------------------------------------

  lemma Arrives(x: World, key: string)
    requires Initial(x) && |x.db.events| == 1 && |x.workers| == 2
    ensures Two(Next(x, Deliver(0, key)), FirstJob(x.now), FirstPhoto(key), [], FILLING, Idle, Idle)
  {
    StepValid(x, Deliver(0, key));
    assert x.db.photos == [] && x.db.faces == [];
  }

  lemma FirstTakes(x: World, key: string)
    requires Two(x, FirstJob(x.now), FirstPhoto(key), [], FILLING, Idle, Idle)
    ensures Two(Next(x, Take(0, [0])), ClaimJob(FirstJob(x.now), 0, x.now, x.lease), FirstPhoto(key), [], FILLING,
                OnIt(x.now + x.lease, Beating), Idle)
  {
    var batch: seq<nat> := [0];
    StepValid(x, Take(0, batch));
    assert 0 in batch && Enabled(x, Take(0, batch));
    assert seq(1, _ => x.now + x.lease) == [x.now + x.lease];
  }

  lemma Beats(x: World, job: Job, photo: Photo, rows: seq<Face>, v: WorkerState, w: WorkerState, i: nat)
    requires i < 2 && Two(x, job, photo, rows, FILLING, v, w) && [v, w][i] == OnIt(x.now + x.lease, Beating)
    requires job.state.Running? && job.lockedUntil == Some(x.now + x.lease)
    ensures Two(Next(x, Beat(i)), job, photo, rows, FILLING, if i == 0 then OnIt(x.now + x.lease, Fetching) else v,
                if i == 0 then w else OnIt(x.now + x.lease, Fetching))
  {
    StepValid(x, Beat(i));
    var b := x.workers[i];
    assert Renewed(b, x.now, x.lease) == [x.now + x.lease];
    assert Renew(x.db, b.batch, x.now, x.lease).jobs == [job];
  }

  lemma Previews(x: World, job: Job, photo: Photo, rows: seq<Face>, v: WorkerState, w: WorkerState, i: nat, until: int)
    requires i < 2 && Two(x, job, photo, rows, FILLING, v, w) && [v, w][i] == OnIt(until, Fetching)
    ensures Two(Next(x, Preview(i)), job, WithDerivatives(photo, PreviewKey(photo.key), ThumbKey(photo.key)), rows, FILLING,
                if i == 0 then OnIt(until, Phase.Derived) else v, if i == 0 then w else OnIt(until, Phase.Derived))
  {
    StepValid(x, Preview(i));
    assert Current(x, i) == 0;
  }

  lemma Detects(x: World, job: Job, photo: Photo, before: seq<Face>, rows: seq<Face>, v: WorkerState, w: WorkerState, i: nat, until: int)
    requires i < 2 && Two(x, job, photo, before, FILLING, v, w) && [v, w][i] == OnIt(until, Phase.Derived)
    ensures Two(Next(x, Detect(i, rows, 0)), job, photo, rows, FILLING,
                if i == 0 then OnIt(until, Replaced(|rows|, 0)) else v, if i == 0 then w else OnIt(until, Replaced(|rows|, 0)))
  {
    StepValid(x, Detect(i, rows, 0));
    assert Current(x, i) == 0;
  }

  lemma LeaseLapses(x: World, job: Job, photo: Photo, rows: seq<Face>, v: WorkerState, w: WorkerState)
    requires Two(x, job, photo, rows, FILLING, v, w)
    ensures Two(Next(x, Tick(x.lease + 1)), job, photo, rows, FILLING, v, w)
    ensures Next(x, Tick(x.lease + 1)).now == x.now + x.lease + 1 && Next(x, Tick(x.lease + 1)).lease == x.lease
  {
    StepValid(x, Tick(x.lease + 1));
  }

  lemma SecondTakes(x: World, job: Job, photo: Photo, rows: seq<Face>, v: WorkerState)
    requires Two(x, job, photo, rows, FILLING, v, Idle) && Claimable(job, x.now)
    ensures Two(Next(x, Take(1, [0])), ClaimJob(job, 1, x.now, x.lease), photo, rows, FILLING, v, OnIt(x.now + x.lease, Beating))
  {
    var batch: seq<nat> := [0];
    StepValid(x, Take(1, batch));
    assert 0 in batch && Enabled(x, Take(1, batch));
    assert seq(1, _ => x.now + x.lease) == [x.now + x.lease];
  }

  function Counted(photo: Photo, n: nat): Photo {
    photo.(status := PhotoStatus.Indexed, facesIndexed := n, facesRejected := 0)
  }

  lemma SecondSucceeds(x: World, job: Job, photo: Photo, rows: seq<Face>, v: WorkerState, until: int)
    requires Two(x, job, photo, rows, FILLING, v, OnIt(until, Replaced(|rows|, 0))) && job.event == 0
    ensures Two(Next(x, Succeed(1)), Release(job, Done, None), Counted(photo, |rows|), rows,
                Event(Ready, 1, |rows|, 0), v, Busy([0], 1, [until], Beating))
  {
    StepValid(x, Succeed(1));
    assert Current(x, 1) == 0;
    var db := Finish(x.db, 0, true, None, |rows|, 0, x.now);
    assert Db([Release(job, Done, None)], [Counted(photo, |rows|)], [rows], [FILLING]).Quiet(0);
    assert db.events == [Event(Ready, 1, |rows|, 0)];
  }

  // -------------------------------------------------------------------------
  // The late report
  // -------------------------------------------------------------------------

  /** The second worker has done the job; the first still thinks it is on it. */
  ghost predicate FirstIsLate(x: World, job: Job, photo: Photo, rows: seq<Face>, until: int, phase: Phase) {
    exists w :: Two(x, job, Counted(photo, |rows|), rows, Event(Ready, 1, |rows|, 0), OnIt(until, phase), w)
  }

  lemma LateFailureReopens(x: World, job: Job, photo: Photo, rows: seq<Face>, until: int, error: string)
    requires FirstIsLate(x, job, photo, rows, until, Fetching) && job.attempts < job.maxAttempts && job.event == 0
    ensures OnPhoto(x, 0) && Reopens(x, 0, false)
    ensures var db := Next(x, Fail(0, error)).db; |db.events| == 1 && db.events[0].status == Ready && !db.Quiet(0)
  {
    StepValid(x, Fail(0, error));
    assert Current(x, 0) == 0;
    var db := Next(x, Fail(0, error)).db;
    assert db.jobs[0].state.Pending? && db.jobs[0].event == 0;
  }

  lemma LateSuccessDoubles(x: World, job: Job, photo: Photo, rows: seq<Face>, until: int)
    requires FirstIsLate(x, job, photo, rows, until, Replaced(|rows|, 0)) && job.event == 0 && photo.event == 0
    ensures var db := Next(x, Succeed(0)).db;
            |db.events| == 1 && db.events[0].faceCount == 2 * |rows| && Total(db.photos, 0, IndexedOf) == |rows|
  {
    StepValid(x, Succeed(0));
    assert Current(x, 0) == 0;
    var db := Next(x, Succeed(0)).db;
    assert db.photos == [Counted(photo, |rows|)];
    assert db.photos[..0] == [];
  }

  // -------------------------------------------------------------------------
  // The runs
  // -------------------------------------------------------------------------

  /** A set of worlds that timely steps of living workers do not leave. */
  ghost predicate Closed(reach: World -> bool) {
    forall y, s :: Valid(y) && reach(y) && Timely(y, s) && !s.Crash? ==> reach(Next(y, s))
  }

  /** It has a world with this clock, job, photo and pair of workers. */
  ghost predicate Has(reach: World -> bool, now: int, lease: nat, job: Job, photo: Photo, rows: seq<Face>, ev: Event, v: WorkerState, w: WorkerState) {
    exists y :: reach(y) && At(y, now, lease) && Two(y, job, photo, rows, ev, v, w)
  }

  /** The clock, and nothing waited for yet. */
  ghost predicate At(y: World, now: int, lease: nat) {
    y.now == now && y.lease == lease && y.waited == [0]
  }

  lemma HasStart(reach: World -> bool, x: World, key: string)
    requires Closed(reach) && reach(x) && Initial(x) && |x.db.events| == 1 && |x.workers| == 2
    ensures Has(reach, x.now, x.lease, FirstJob(x.now), FirstPhoto(key), [], FILLING, Idle, Idle)
  {
    Arrives(x, key);
    assert Timely(x, Deliver(0, key));
    assert At(Next(x, Deliver(0, key)), x.now, x.lease);
  }

  lemma HasFirst(reach: World -> bool, now: int, lease: nat, key: string)
    requires Closed(reach) && Has(reach, now, lease, FirstJob(now), FirstPhoto(key), [], FILLING, Idle, Idle)
    ensures Has(reach, now, lease, ClaimJob(FirstJob(now), 0, now, lease), FirstPhoto(key), [], FILLING, OnIt(now + lease, Beating), Idle)
  {
    var y :| reach(y) && At(y, now, lease) && Two(y, FirstJob(now), FirstPhoto(key), [], FILLING, Idle, Idle);
    FirstTakes(y, key);
    assert Timely(y, Take(0, [0]));
    assert At(Next(y, Take(0, [0])), now, lease);
  }

  lemma HasBeat(reach: World -> bool, now: int, lease: nat, job: Job, photo: Photo, rows: seq<Face>, v: WorkerState, w: WorkerState, i: nat)
    requires Closed(reach) && Has(reach, now, lease, job, photo, rows, FILLING, v, w) && i < 2 && [v, w][i] == OnIt(now + lease, Beating)
    requires job.state.Running? && job.lockedUntil == Some(now + lease)
    ensures Has(reach, now, lease, job, photo, rows, FILLING, if i == 0 then OnIt(now + lease, Fetching) else v,
                if i == 0 then w else OnIt(now + lease, Fetching))
  {
    var y :| reach(y) && At(y, now, lease) && Two(y, job, photo, rows, FILLING, v, w);
    Beats(y, job, photo, rows, v, w, i);
    assert Timely(y, Beat(i));
    assert At(Next(y, Beat(i)), now, lease);
  }

  lemma HasPreview(reach: World -> bool, now: int, lease: nat, job: Job, photo: Photo, rows: seq<Face>, v: WorkerState, w: WorkerState, i: nat, until: int)
    requires Closed(reach) && Has(reach, now, lease, job, photo, rows, FILLING, v, w) && i < 2 && [v, w][i] == OnIt(until, Fetching)
    ensures Has(reach, now, lease, job, WithDerivatives(photo, PreviewKey(photo.key), ThumbKey(photo.key)), rows, FILLING,
                if i == 0 then OnIt(until, Phase.Derived) else v, if i == 0 then w else OnIt(until, Phase.Derived))
  {
    var y :| reach(y) && At(y, now, lease) && Two(y, job, photo, rows, FILLING, v, w);
    Previews(y, job, photo, rows, v, w, i, until);
    assert Timely(y, Preview(i));
    assert At(Next(y, Preview(i)), now, lease);
  }

  lemma HasDetect(reach: World -> bool, now: int, lease: nat, job: Job, photo: Photo, before: seq<Face>, rows: seq<Face>, v: WorkerState, w: WorkerState, i: nat, until: int)
    requires Closed(reach) && Has(reach, now, lease, job, photo, before, FILLING, v, w) && i < 2 && [v, w][i] == OnIt(until, Phase.Derived)
    ensures Has(reach, now, lease, job, photo, rows, FILLING,
                if i == 0 then OnIt(until, Replaced(|rows|, 0)) else v, if i == 0 then w else OnIt(until, Replaced(|rows|, 0)))
  {
    var y :| reach(y) && At(y, now, lease) && Two(y, job, photo, before, FILLING, v, w);
    Detects(y, job, photo, before, rows, v, w, i, until);
    assert Timely(y, Detect(i, rows, 0));
    assert At(Next(y, Detect(i, rows, 0)), now, lease);
  }

  /** A worker with a new claim does everything but its report. */
  lemma HasWorked(reach: World -> bool, now: int, lease: nat, job: Job, photo: Photo, before: seq<Face>, rows: seq<Face>, v: WorkerState, w: WorkerState, i: nat)
    requires Closed(reach) && Has(reach, now, lease, job, photo, before, FILLING, v, w) && i < 2 && [v, w][i] == OnIt(now + lease, Beating)
    requires job.state.Running? && job.lockedUntil == Some(now + lease)
    ensures Has(reach, now, lease, job, WithDerivatives(photo, PreviewKey(photo.key), ThumbKey(photo.key)), rows, FILLING,
                if i == 0 then OnIt(now + lease, Replaced(|rows|, 0)) else v,
                if i == 0 then w else OnIt(now + lease, Replaced(|rows|, 0)))
  {
    var until := now + lease;
    HasBeat(reach, now, lease, job, photo, before, v, w, i);
    var v1, w1 := if i == 0 then OnIt(until, Fetching) else v, if i == 0 then w else OnIt(until, Fetching);
    HasPreview(reach, now, lease, job, photo, before, v1, w1, i, until);
    var v2, w2 := if i == 0 then OnIt(until, Phase.Derived) else v, if i == 0 then w else OnIt(until, Phase.Derived);
    HasDetect(reach, now, lease, job, WithDerivatives(photo, PreviewKey(photo.key), ThumbKey(photo.key)), before, rows, v2, w2, i, until);
  }

  lemma HasLapsed(reach: World -> bool, now: int, lease: nat, job: Job, photo: Photo, rows: seq<Face>, v: WorkerState, w: WorkerState)
    requires Closed(reach) && Has(reach, now, lease, job, photo, rows, FILLING, v, w)
    ensures Has(reach, now + lease + 1, lease, job, photo, rows, FILLING, v, w)
  {
    var y :| reach(y) && At(y, now, lease) && Two(y, job, photo, rows, FILLING, v, w);
    LeaseLapses(y, job, photo, rows, v, w);
    assert Timely(y, Tick(lease + 1));
    assert At(Next(y, Tick(lease + 1)), now + lease + 1, lease);
  }

  lemma HasSecond(reach: World -> bool, now: int, lease: nat, job: Job, photo: Photo, rows: seq<Face>, v: WorkerState)
    requires Closed(reach) && Has(reach, now, lease, job, photo, rows, FILLING, v, Idle) && Claimable(job, now)
    ensures Has(reach, now, lease, ClaimJob(job, 1, now, lease), photo, rows, FILLING, v, OnIt(now + lease, Beating))
  {
    var y :| reach(y) && At(y, now, lease) && Two(y, job, photo, rows, FILLING, v, Idle);
    SecondTakes(y, job, photo, rows, v);
    assert Timely(y, Take(1, [0]));
    assert At(Next(y, Take(1, [0])), now, lease);
  }

  lemma HasFinished(reach: World -> bool, now: int, lease: nat, job: Job, photo: Photo, rows: seq<Face>, v: WorkerState)
    requires Closed(reach) && Has(reach, now, lease, job, photo, rows, FILLING, v, OnIt(now + lease, Replaced(|rows|, 0))) && job.event == 0
    ensures Has(reach, now, lease, Release(job, Done, None), Counted(photo, |rows|), rows, Event(Ready, 1, |rows|, 0), v,
                Busy([0], 1, [now + lease], Beating))
  {
    var y :| reach(y) && At(y, now, lease) && Two(y, job, photo, rows, FILLING, v, OnIt(now + lease, Replaced(|rows|, 0)));
    SecondSucceeds(y, job, photo, rows, v, now + lease);
    assert Live(y, 1, 0);
    assert Timely(y, Succeed(1));
    assert At(Next(y, Succeed(1)), now, lease);
  }

  // -------------------------------------------------------------------------
  // The story
  // -------------------------------------------------------------------------

  function FirstClaim(now: int, lease: nat): Job { ClaimJob(FirstJob(now), 0, now, lease) }

  function SecondClaim(now: int, lease: nat): Job { ClaimJob(FirstClaim(now, lease), 1, now + lease + 1, lease) }

  /** The first worker has barely begun when its lease lapses. */
  lemma SlowAtOnce(reach: World -> bool, now: int, lease: nat, key: string)
    requires Closed(reach) && Has(reach, now, lease, FirstJob(now), FirstPhoto(key), [], FILLING, Idle, Idle)
    ensures Has(reach, now + lease + 1, lease, FirstClaim(now, lease), FirstPhoto(key), [], FILLING, OnIt(now + lease, Fetching), Idle)
  {
    HasFirst(reach, now, lease, key);
    HasBeat(reach, now, lease, FirstClaim(now, lease), FirstPhoto(key), [], OnIt(now + lease, Beating), Idle, 0);
    HasLapsed(reach, now, lease, FirstClaim(now, lease), FirstPhoto(key), [], OnIt(now + lease, Fetching), Idle);
  }

  /** Or it has done everything but its report. */
  lemma SlowAtLast(reach: World -> bool, now: int, lease: nat, key: string, rows: seq<Face>)
    requires Closed(reach) && Has(reach, now, lease, FirstJob(now), FirstPhoto(key), [], FILLING, Idle, Idle)
    ensures Has(reach, now + lease + 1, lease, FirstClaim(now, lease), WithPreview(key), rows, FILLING, OnIt(now + lease, Replaced(|rows|, 0)), Idle)
  {
    HasFirst(reach, now, lease, key);
    HasWorked(reach, now, lease, FirstClaim(now, lease), FirstPhoto(key), [], rows, OnIt(now + lease, Beating), Idle, 0);
    HasLapsed(reach, now, lease, FirstClaim(now, lease), WithPreview(key), rows, OnIt(now + lease, Replaced(|rows|, 0)), Idle);
  }

  /** The second worker takes the job over. */
  lemma TakenOver(reach: World -> bool, now: int, lease: nat, later: int, photo: Photo, before: seq<Face>, first: WorkerState)
    requires Closed(reach) && later == now + lease + 1 && Has(reach, later, lease, FirstClaim(now, lease), photo, before, FILLING, first, Idle)
    ensures Has(reach, later, lease, SecondClaim(now, lease), photo, before, FILLING, first, OnIt(later + lease, Beating))
  {
    HasSecond(reach, later, lease, FirstClaim(now, lease), photo, before, first);
  }

  /** And finishes it. */
  lemma Overtaken(reach: World -> bool, now: int, lease: nat, later: int, key: string, photo: Photo, before: seq<Face>, rows: seq<Face>, first: WorkerState)
    requires Closed(reach) && later == now + lease + 1 && Has(reach, later, lease, FirstClaim(now, lease), photo, before, FILLING, first, Idle)
    requires photo == FirstPhoto(key) || photo == WithPreview(key)
    ensures Has(reach, later, lease, Release(SecondClaim(now, lease), Done, None), Counted(WithPreview(key), |rows|), rows,
                Event(Ready, 1, |rows|, 0), first, Busy([0], 1, [later + lease], Beating))
  {
    TakenOver(reach, now, lease, later, photo, before, first);
    HasWorked(reach, later, lease, SecondClaim(now, lease), photo, before, rows, first, OnIt(later + lease, Beating), 1);
    assert WithDerivatives(photo, PreviewKey(key), ThumbKey(key)) == WithPreview(key);
    HasFinished(reach, later, lease, SecondClaim(now, lease), WithPreview(key), rows, first);
  }

  // -------------------------------------------------------------------------
  // The runs
  // -------------------------------------------------------------------------

  ghost predicate Leads(x: World, steps: seq<Step>, y: World) {
    Valid(x) && Run(x, steps) == y && TimelyRun(x, steps)
  }

  /** Where timely runs from `x` lead. */
  ghost predicate Reached(x: World, y: World) {
    exists steps :: Leads(x, steps, y)
  }

  lemma ReachedClosed(x: World, y: World, s: Step)
    requires Reached(x, y) && Valid(y) && Timely(y, s) && !s.Crash?
    ensures Reached(x, Next(y, s))
  {
    var steps :| Leads(x, steps, y);
    assert (steps + [s])[..|steps|] == steps;
    assert Leads(x, steps + [s], Next(y, s));
  }

  lemma Reach(x: World, key: string) returns (reach: World -> bool)
    requires Initial(x) && |x.db.events| == 1 && |x.workers| == 2
    ensures Closed(reach) && forall y :: reach(y) <==> Reached(x, y)
    ensures Has(reach, x.now, x.lease, FirstJob(x.now), FirstPhoto(key), [], FILLING, Idle, Idle)
  {
    reach := y => Reached(x, y);
    forall y, s | Valid(y) && reach(y) && Timely(y, s) && !s.Crash? ensures reach(Next(y, s)) {
      ReachedClosed(x, y, s);
    }
    assert Leads(x, [], x);
    HasStart(reach, x, key);
  }

  lemma TakenOverIsTrespass(y: World, job: Job, photo: Photo, rows: seq<Face>, until: int, later: int)
    requires Two(y, job, photo, rows, FILLING, OnIt(until, Replaced(|rows|, 0)), OnIt(later, Beating)) && y.now <= later
    ensures OnPhoto(y, 0) && Trespass(y, 0)
  {
    assert Live(y, 1, 0) && y.workers[1].batch[0] == Current(y, 0);
  }

  ghost predicate BreaksALease(y: World, w: nat, indexed: nat) {
    Valid(y) && LeasesHold(y) && OnPhoto(y, w) && Trespass(y, w) && !LeasesHold(DoFinish(y, w, true, None, indexed, 0))
  }

  lemma TrespassBreaks(y: World, steps: seq<Step>, x: World, indexed: nat)
    requires Initial(x) && Leads(x, steps, y) && OnPhoto(y, 0) && Trespass(y, 0)
    ensures BreaksALease(y, 0, indexed)
  {
    RunKeepsLeases(x, steps);
    FinishSafeIffNoTrespass(y, 0, true, None, indexed, 0);
  }

  ghost predicate Trespassing(y: World) {
    OnPhoto(y, 0) && Trespass(y, 0)
  }

  lemma SomeTrespass(reach: World -> bool, now: int, lease: nat, later: int, key: string, rows: seq<Face>)
    requires Closed(reach) && Has(reach, now, lease, FirstJob(now), FirstPhoto(key), [], FILLING, Idle, Idle) && later == now + lease + 1
    ensures exists y :: reach(y) && Trespassing(y)
  {
    SlowAtLast(reach, now, lease, key, rows);
    TakenOver(reach, now, lease, later, WithPreview(key), rows, OnIt(now + lease, Replaced(|rows|, 0)));
    var y :| reach(y) && At(y, later, lease) && Two(y, SecondClaim(now, lease), WithPreview(key), rows, FILLING,
                                                    OnIt(now + lease, Replaced(|rows|, 0)), OnIt(later + lease, Beating));
    TakenOverIsTrespass(y, SecondClaim(now, lease), WithPreview(key), rows, now + lease, later + lease);
    assert Trespassing(y);
  }

  /** A timely run after which a report of the first worker is a trespass, and breaks a lease. */
  lemma LateReportTrespasses(x: World, key: string, rows: seq<Face>) returns (steps: seq<Step>)
    requires Initial(x) && |x.db.events| == 1 && |x.workers| == 2
    ensures TimelyRun(x, steps) && BreaksALease(Run(x, steps), 0, |rows|)
  {
    var reach := Reach(x, key);
    SomeTrespass(reach, x.now, x.lease, x.now + x.lease + 1, key, rows);
    var y :| reach(y) && Trespassing(y);
    steps :| Leads(x, steps, y);
    TrespassBreaks(y, steps, x, |rows|);
  }

  lemma SomeLate(reach: World -> bool, now: int, lease: nat, later: int, key: string, rows: seq<Face>, atLast: bool)
    requires Closed(reach) && Has(reach, now, lease, FirstJob(now), FirstPhoto(key), [], FILLING, Idle, Idle) && later == now + lease + 1
    ensures exists y :: reach(y) && FirstIsLate(y, Release(SecondClaim(now, lease), Done, None), WithPreview(key), rows, now + lease,
                                                if atLast then Replaced(|rows|, 0) else Fetching)
  {
    var phase := if atLast then Replaced(|rows|, 0) else Fetching;
    if atLast {
      SlowAtLast(reach, now, lease, key, rows);
      Overtaken(reach, now, lease, later, key, WithPreview(key), rows, rows, OnIt(now + lease, phase));
    } else {
      SlowAtOnce(reach, now, lease, key);
      Overtaken(reach, now, lease, later, key, FirstPhoto(key), [], rows, OnIt(now + lease, phase));
    }
    var y :| reach(y) && At(y, later, lease)
      && Two(y, Release(SecondClaim(now, lease), Done, None), Counted(WithPreview(key), |rows|), rows, Event(Ready, 1, |rows|, 0),
             OnIt(now + lease, phase), Busy([0], 1, [later + lease], Beating));
    assert FirstIsLate(y, Release(SecondClaim(now, lease), Done, None), WithPreview(key), rows, now + lease, phase);
  }

  /** A timely run after which the second worker has done the job and the first does not know. */
  lemma SecondFinishes(x: World, key: string, rows: seq<Face>, atLast: bool) returns (steps: seq<Step>, y: World)
    requires Initial(x) && |x.db.events| == 1 && |x.workers| == 2
    ensures Leads(x, steps, y)
    ensures FirstIsLate(y, Release(SecondClaim(x.now, x.lease), Done, None), WithPreview(key), rows, x.now + x.lease,
                        if atLast then Replaced(|rows|, 0) else Fetching)
  {
    var reach := Reach(x, key);
    SomeLate(reach, x.now, x.lease, x.now + x.lease + 1, key, rows, atLast);
    y :| reach(y) && FirstIsLate(y, Release(SecondClaim(x.now, x.lease), Done, None), WithPreview(key), rows, x.now + x.lease,
                                 if atLast then Replaced(|rows|, 0) else Fetching);
    steps :| Leads(x, steps, y);
  }

  lemma RunSnoc(x: World, steps: seq<Step>, y: World, s: Step)
    requires Leads(x, steps, y)
    ensures Valid(y) && Run(x, steps + [s]) == Next(y, s)
  {
    assert (steps + [s])[..|steps|] == steps;
  }

  /** A run that leaves a ready event with work to do. */
  lemma ReadyButNotQuiet(x: World, key: string, rows: seq<Face>, error: string) returns (steps: seq<Step>)
    requires Initial(x) && |x.db.events| == 1 && |x.workers| == 2
    ensures var db := Run(x, steps).db; |db.events| == 1 && db.events[0].status == Ready && !db.Quiet(0)
  {
    var before, y := SecondFinishes(x, key, rows, false);
    LateFailureReopens(y, Release(SecondClaim(x.now, x.lease), Done, None), WithPreview(key), rows, x.now + x.lease, error);
    RunSnoc(x, before, y, Fail(0, error));
    steps := before + [Fail(0, error)];
  }

  /** A run that counts every face of a photo twice. */
  lemma CountedTwice(x: World, key: string, rows: seq<Face>) returns (steps: seq<Step>)
    requires Initial(x) && |x.db.events| == 1 && |x.workers| == 2
    ensures var db := Run(x, steps).db;
            |db.events| == 1 && db.events[0].faceCount == 2 * |rows| && Total(db.photos, 0, IndexedOf) == |rows|
  {
    var before, y := SecondFinishes(x, key, rows, true);
    LateSuccessDoubles(y, Release(SecondClaim(x.now, x.lease), Done, None), WithPreview(key), rows, x.now + x.lease);
    RunSnoc(x, before, y, Succeed(0));
    steps := before + [Succeed(0)];
  }
}
