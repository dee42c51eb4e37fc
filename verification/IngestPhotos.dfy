/** What a photo's row says about its job: what the album's page and its list of failures read. */
module IngestPhotos {
  import opened Wrappers
  import opened Ingest
  import opened IngestRuns

  /** The step records the photo's derivatives, which puts it under way whatever its job is by then. */
  ghost predicate Previews(x: World, s: Step, p: nat)
    requires Valid(x)
  {
    s.Preview? && Enabled(x, s) && Current(x, s.w) == p
  }

  ghost predicate Reports(x: World, s: Step, p: nat)
    requires Valid(x)
  {
    (s.Succeed? || s.Fail?) && Enabled(x, s) && Current(x, s.w) == p
  }

  /** Derivatives of the photo were recorded after the last report of its job, by its worker or a late one. */
  ghost predicate UnderWay(x: World, steps: seq<Step>, p: nat)
    requires Valid(x)
  {
    steps != [] &&
    var a, s := Run(x, steps[..|steps| - 1]), steps[|steps| - 1];
    Previews(a, s, p) || (UnderWay(x, steps[..|steps| - 1], p) && !Reports(a, s, p))
  }

  ghost predicate Follows(db: Db, p: nat, underWay: bool) {
    && p < |db.jobs| && p < |db.photos|
    && (db.photos[p].status.Processing? <==> underWay)
    && (!underWay && db.jobs[p].state.Failed? ==> db.photos[p].status.DeadLettered?)
    && (!underWay && db.jobs[p].state.Done? ==> db.photos[p].status.Indexed?)
    && (!underWay && (db.jobs[p].state.Pending? || db.jobs[p].state.Running?) ==> db.photos[p].status.Waiting?)
  }

  lemma ReportFollows(x: World, w: nat, ok: bool, error: Option<string>, indexed: nat, rejected: nat, p: nat, underWay: bool)
    requires Valid(x) && OnPhoto(x, w) && Follows(x.db, p, underWay)
    ensures Follows(DoFinish(x, w, ok, error, indexed, rejected).db, p, underWay && Current(x, w) != p)
  {
  }

  lemma StepFollows(x: World, s: Step, p: nat, underWay: bool)
    requires Valid(x) && Follows(x.db, p, underWay)
    ensures Follows(Next(x, s).db, p, Previews(x, s, p) || (underWay && !Reports(x, s, p)))
  {
    if Enabled(x, s) {
      match s
      case Succeed(w) => ReportFollows(x, w, true, None, x.workers[w].phase.indexed, x.workers[w].phase.rejected, p, underWay);
      case Fail(w, error) => ReportFollows(x, w, false, Some(error), 0, 0, p, underWay);
      case _ =>
    }
  }

  lemma {:induction false} NotUnderWayYet(x: World, steps: seq<Step>, p: nat)
    requires Initial(x) && p >= |Run(x, steps).db.jobs|
    ensures !UnderWay(x, steps, p)
    decreases |steps|
  {
    if steps != [] {
      var a, s := Run(x, steps[..|steps| - 1]), steps[|steps| - 1];
      StepValid(a, s);
      NotUnderWayYet(x, steps[..|steps| - 1], p);
      assert s.Preview? && Enabled(a, s) ==> WorkerOk(a, a.workers[s.w]);
    }
  }

  lemma ArrivesWaiting(x: World, s: Step, p: nat)
    requires Valid(x) && |x.db.jobs| <= p < |Next(x, s).db.jobs|
    ensures Follows(Next(x, s).db, p, false) && !Previews(x, s, p)
  {
  }

  /** In every run -- crashes, takeovers, late reports -- a photo is under way exactly when its derivatives
      were recorded since the last report of its job, and otherwise follows the job: failed means dead-lettered,
      done means indexed, open means waiting. */
  lemma {:induction false} PhotosFollowJobs(x: World, steps: seq<Step>, p: nat)
    requires Initial(x) && p < |Run(x, steps).db.jobs|
    ensures Follows(Run(x, steps).db, p, UnderWay(x, steps, p))
    decreases |steps|
  {
    if steps != [] {
      var init, s := steps[..|steps| - 1], steps[|steps| - 1];
      if p < |Run(x, init).db.jobs| {
        PhotosFollowJobs(x, init, p);
        StepFollows(Run(x, init), s, p, UnderWay(x, init, p));
      } else {
        NotUnderWayYet(x, init, p);
        ArrivesWaiting(Run(x, init), s, p);
      }
    }
  }

  /** So the list of failures is the photos whose job is in the dead letter queue, less those a late worker
      has begun since; nothing else is on it, and no photo of an open job is done or dead-lettered. */
  lemma FailureListIff(x: World, steps: seq<Step>, p: nat)
    requires Initial(x) && p < |Run(x, steps).db.jobs|
    ensures var db := Run(x, steps).db;
            && p < |db.photos|
            && (db.photos[p].status.DeadLettered? <==> db.jobs[p].state.Failed? && !UnderWay(x, steps, p))
            && (db.photos[p].status.Indexed? <==> db.jobs[p].state.Done? && !UnderWay(x, steps, p))
            && (db.jobs[p].state.Pending? || db.jobs[p].state.Running? ==>
                  db.photos[p].status.Waiting? || db.photos[p].status.Processing?)
  {
    PhotosFollowJobs(x, steps, p);
  }
}
