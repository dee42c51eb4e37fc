/** Several ingest workers, crashes, lease expiry and uploads as one transition system. */
module IngestRuns {
  import opened Wrappers
  import opened Ingest
  import opened StorageKeys

  /** Where a worker is in its batch loop.  `Beating`: about to renew the batch's leases. */
  datatype Phase = Beating | Fetching | Derived | Replaced(indexed: nat, rejected: nat)

  /** `views[k]` is when, as far as the worker knows, its lease on `batch[k]` ends. */
  datatype WorkerState = Idle | Busy(batch: seq<nat>, pos: nat, views: seq<int>, phase: Phase)

  /** The tables, the clock, the workers' memories, and three counters no code reads: indexed and
      rejected counts that a later success of the same photo replaced, and seconds of backoff. */
  datatype World = World(
    db: Db, now: int, lease: nat, workers: seq<WorkerState>,
    lostFaces: seq<nat>, lostRejects: seq<nat>, waited: seq<nat>)

  datatype Step =
    | Tick(seconds: nat)
    | Deliver(event: nat, key: string)
    | Take(w: nat, batch: seq<nat>)
    | Beat(w: nat)
    | Preview(w: nat)
    | Detect(w: nat, rows: seq<Face>, rejected: nat)
    | Succeed(w: nat)
    | Fail(w: nat, error: string)
    | Crash(w: nat)

  ghost predicate Working(x: World, w: nat) {
    w < |x.workers| && x.workers[w].Busy?
  }

  /** A worker in the middle of a photo. */
  ghost predicate OnPhoto(x: World, w: nat) {
    && Working(x, w) && !x.workers[w].phase.Beating?
    && x.workers[w].pos < |x.workers[w].batch|
  }

  ghost predicate Enabled(x: World, s: Step) {
    match s
    case Tick(_) => true
    case Deliver(e, _) => e < |x.db.events|
    case Take(w, batch) =>
      && w < |x.workers| && x.workers[w].Idle? && batch != [] && NoRepeats(batch)
      && forall k :: 0 <= k < |batch| ==> batch[k] < |x.db.jobs| && Claimable(x.db.jobs[batch[k]], x.now)
    case Beat(w) => Working(x, w) && x.workers[w].phase.Beating?
    case Preview(w) => OnPhoto(x, w) && x.workers[w].phase.Fetching?
    case Detect(w, _, _) => OnPhoto(x, w) && x.workers[w].phase.Derived?
    case Succeed(w) => OnPhoto(x, w) && x.workers[w].phase.Replaced?
    case Fail(w, _) => OnPhoto(x, w)
    case Crash(w) => Working(x, w)
  }

  /** The job a worker is on. */
  function Current(x: World, w: nat): nat
    requires OnPhoto(x, w)
  {
    x.workers[w].batch[x.workers[w].pos]
  }

  // -------------------------------------------------------------------------
  // Well-formed worlds
  // -------------------------------------------------------------------------

  ghost predicate WorkerOk(x: World, b: WorkerState) {
    b.Busy? ==>
      && |b.views| == |b.batch| && b.pos <= |b.batch| && NoRepeats(b.batch)
      && (b.phase.Beating? || b.pos < |b.batch|)
      && (forall k :: 0 <= k < |b.batch| ==> b.batch[k] < |x.db.jobs| && b.views[k] <= x.now + x.lease)
  }

  ghost predicate Valid(x: World) {
    && x.db.Valid()
    && (forall w :: 0 <= w < |x.workers| ==> WorkerOk(x, x.workers[w]))
    && |x.lostFaces| == |x.lostRejects| == |x.db.events| && |x.waited| == |x.db.jobs|
  }

  // -------------------------------------------------------------------------
  // Steps
  // -------------------------------------------------------------------------

  function DoDeliver(x: World, event: nat, key: string): World
    requires x.db.Valid() && event < |x.db.events|
  {
    x.(db := Upload(x.db, event, key, x.now),
       waited := if Stored(x.db, event, key) then x.waited else x.waited + [0])
  }

  function DoTake(x: World, w: nat, batch: seq<nat>): World
    requires w < |x.workers|
  {
    x.(db := ClaimAll(x.db, batch, w, x.now, x.lease),
       workers := x.workers[w := Busy(batch, 0, seq(|batch|, _ => x.now + x.lease), Beating)])
  }

  /** A renewal the worker may rely on: of a job not finished yet, under a lease not over yet. */
  function Renewed(b: WorkerState, now: int, lease: nat): (r: seq<int>)
    requires b.Busy? && |b.views| == |b.batch|
    ensures |r| == |b.views|
    ensures forall k :: 0 <= k < |r| ==> r[k] == if k >= b.pos && now <= b.views[k] then now + lease else b.views[k]
  {
    seq(|b.views|, k requires 0 <= k < |b.views| => if k >= b.pos && now <= b.views[k] then now + lease else b.views[k])
  }

  /** The whole batch is sent, finished jobs included. */
  function DoBeat(x: World, w: nat): World
    requires Valid(x) && Working(x, w)
  {
    var b := x.workers[w];
    x.(db := Renew(x.db, b.batch, x.now, x.lease),
       workers := x.workers[w := if b.pos == |b.batch| then Idle else b.(views := Renewed(b, x.now, x.lease), phase := Fetching)])
  }

  /** store_photo_derivatives with the keys `derivative_keys` makes of the photo's own. */
  function Previewed(x: World, w: nat): World
    requires Valid(x) && OnPhoto(x, w)
  {
    var id := Current(x, w);
    x.(db := Derive(x.db, id, PreviewKey(x.db.photos[id].key), ThumbKey(x.db.photos[id].key)))
  }

  function SetPhase(x: World, w: nat, phase: Phase): World
    requires Working(x, w)
  {
    x.(workers := x.workers[w := x.workers[w].(phase := phase)])
  }

  function DoFinish(x: World, w: nat, ok: bool, error: Option<string>, indexed: nat, rejected: nat): World
    requires Valid(x) && OnPhoto(x, w)
  {
    var b := x.workers[w];
    var id := Current(x, w);
    var e := x.db.jobs[id].event;
    var old_ := x.db.photos[id];
    x.(db := Finish(x.db, id, ok, error, indexed, rejected, x.now),
       workers := x.workers[w :=
         if ok then b.(pos := b.pos + 1, phase := Beating)
         else if b.pos + 1 == |b.batch| then Idle
         else b.(pos := b.pos + 1, phase := Fetching)],
       lostFaces := if ok then x.lostFaces[e := x.lostFaces[e] + old_.facesIndexed] else x.lostFaces,
       lostRejects := if ok then x.lostRejects[e := x.lostRejects[e] + old_.facesRejected] else x.lostRejects,
       waited := if Outcome(x.db.jobs[id], ok).Pending? then x.waited[id := x.waited[id] + Backoff(x.db.jobs[id].attempts)] else x.waited)
  }

  /** A step that is not enabled changes nothing. */
  ghost function Next(x: World, s: Step): World
    requires Valid(x)
  {
    if !Enabled(x, s) then x else
      match s
      case Tick(d) => x.(now := x.now + d)
      case Deliver(e, key) => DoDeliver(x, e, key)
      case Take(w, batch) => DoTake(x, w, batch)
      case Beat(w) => DoBeat(x, w)
      case Preview(w) => SetPhase(Previewed(x, w), w, Derived)
      case Detect(w, rows, rejected) =>
        SetPhase(x.(db := Replace(x.db, Current(x, w), rows)), w, Replaced(|rows|, rejected))
      case Succeed(w) => DoFinish(x, w, true, None, x.workers[w].phase.indexed, x.workers[w].phase.rejected)
      case Fail(w, error) => DoFinish(x, w, false, Some(error), 0, 0)
      case Crash(w) => x.(workers := x.workers[w := Idle])
  }

  lemma TakeValid(x: World, w: nat, batch: seq<nat>)
    requires Valid(x) && Enabled(x, Take(w, batch))
    ensures Valid(DoTake(x, w, batch))
  {
  }

  lemma BeatValid(x: World, w: nat)
    requires Valid(x) && Enabled(x, Beat(w))
    ensures Valid(DoBeat(x, w))
  {
  }

  lemma FinishValid(x: World, w: nat, ok: bool, error: Option<string>, indexed: nat, rejected: nat)
    requires Valid(x) && OnPhoto(x, w)
    ensures Valid(DoFinish(x, w, ok, error, indexed, rejected))
  {
  }

  lemma StepValid(x: World, s: Step)
    requires Valid(x)
    ensures Valid(Next(x, s))
    ensures |Next(x, s).workers| == |x.workers| && |Next(x, s).db.jobs| >= |x.db.jobs| && Next(x, s).lease == x.lease
  {
    if Enabled(x, s) {
      match s
      case Take(w, batch) => TakeValid(x, w, batch);
      case Beat(w) => BeatValid(x, w);
      case Succeed(w) => FinishValid(x, w, true, None, x.workers[w].phase.indexed, x.workers[w].phase.rejected);
      case Fail(w, error) => FinishValid(x, w, false, Some(error), 0, 0);
      case _ =>
    }
  }

  ghost function Run(x: World, steps: seq<Step>): (r: World)
    requires Valid(x)
    ensures Valid(r)
  {
    if steps == [] then x
    else
      var before := Run(x, steps[..|steps| - 1]);
      StepValid(before, steps[|steps| - 1]);
      Next(before, steps[|steps| - 1])
  }

  /** Empty album tables, idle workers, and counters at zero. */
  ghost predicate Initial(x: World) {
    && Valid(x) && x.db.jobs == []
    && (forall e :: 0 <= e < |x.db.events| ==> x.db.events[e] == Event(Draft, 0, 0, 0))
    && (forall w :: 0 <= w < |x.workers| ==> x.workers[w] == Idle)
    && (forall e :: 0 <= e < |x.lostFaces| ==> x.lostFaces[e] == x.lostRejects[e] == 0)
  }
}
