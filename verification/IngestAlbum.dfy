/** What an event's row says about its photos: readiness, counters, and uploads. */
module IngestAlbum {
  import opened Wrappers
  import opened Ingest
  import opened IngestRuns
  import opened IngestLeases

  // -------------------------------------------------------------------------
  // Sums over an event's photos
  // -------------------------------------------------------------------------

  function IndexedOf(p: Photo): nat { p.facesIndexed }

  function RejectedOf(p: Photo): nat { p.facesRejected }

  function OneOf(p: Photo): nat { 1 }

  function Total(photos: seq<Photo>, e: nat, weight: Photo -> nat): (r: nat) {
    if photos == [] then 0
    else
      var last := photos[|photos| - 1];
      Total(photos[..|photos| - 1], e, weight) + if last.event == e then weight(last) else 0
  }

  lemma {:induction false} TotalUpdate(photos: seq<Photo>, i: nat, p: Photo, e: nat, weight: Photo -> nat)
    requires i < |photos| && p.event == photos[i].event
    ensures Total(photos[i := p], e, weight) ==
      Total(photos, e, weight) + if p.event == e then weight(p) - weight(photos[i]) else 0
    decreases |photos|
  {
    var init := photos[..|photos| - 1];
    if i < |init| {
      TotalUpdate(init, i, p, e, weight);
      assert photos[i := p][..|photos| - 1] == init[i := p];
    } else {
      assert photos[i := p][..|photos| - 1] == init;
    }
  }

  lemma TotalAppend(photos: seq<Photo>, p: Photo, e: nat, weight: Photo -> nat)
    ensures Total(photos + [p], e, weight) == Total(photos, e, weight) + if p.event == e then weight(p) else 0
  {
    assert (photos + [p])[..|photos|] == photos;
  }

  // -------------------------------------------------------------------------
  // The books, in every run whatever workers do
  // -------------------------------------------------------------------------

  ghost predicate Balanced(x: World, e: nat)
    requires Valid(x) && e < |x.db.events|
  {
    var ev := x.db.events[e];
    && ev.photoCount == Total(x.db.photos, e, OneOf)
    && ev.faceCount == Total(x.db.photos, e, IndexedOf) + x.lostFaces[e]
    && ev.facesRejected == Total(x.db.photos, e, RejectedOf) + x.lostRejects[e]
  }

  lemma FinishBalances(x: World, w: nat, ok: bool, error: Option<string>, indexed: nat, rejected: nat, e: nat)
    requires Valid(x) && OnPhoto(x, w) && e < |x.db.events| && Balanced(x, e)
    ensures var y := DoFinish(x, w, ok, error, indexed, rejected); Valid(y) && Balanced(y, e)
  {
    var id := Current(x, w);
    var p := FinishPhoto(x.db.photos[id], Outcome(x.db.jobs[id], ok), indexed, rejected);
    TotalUpdate(x.db.photos, id, p, e, OneOf);
    TotalUpdate(x.db.photos, id, p, e, IndexedOf);
    TotalUpdate(x.db.photos, id, p, e, RejectedOf);
  }

  lemma DeliverBalances(x: World, event: nat, key: string, e: nat)
    requires Valid(x) && event < |x.db.events| && e < |x.db.events| && Balanced(x, e)
    ensures var y := DoDeliver(x, event, key); Valid(y) && Balanced(y, e)
  {
    var p := Photo(event, key, Waiting, 0, 0, None, None);
    TotalAppend(x.db.photos, p, e, OneOf);
    TotalAppend(x.db.photos, p, e, IndexedOf);
    TotalAppend(x.db.photos, p, e, RejectedOf);
  }

  lemma PreviewBalances(x: World, w: nat, e: nat)
    requires Valid(x) && Enabled(x, Preview(w)) && e < |x.db.events| && Balanced(x, e)
    ensures Valid(Next(x, Preview(w))) && Balanced(Next(x, Preview(w)), e)
  {
    var id := Current(x, w);
    var p := Previewed(x, w).db.photos[id];
    TotalUpdate(x.db.photos, id, p, e, OneOf);
    TotalUpdate(x.db.photos, id, p, e, IndexedOf);
    TotalUpdate(x.db.photos, id, p, e, RejectedOf);
  }

  lemma StepBalances(x: World, s: Step, e: nat)
    requires Valid(x) && e < |x.db.events| && Balanced(x, e)
    ensures Valid(Next(x, s)) && |Next(x, s).db.events| == |x.db.events| && Balanced(Next(x, s), e)
  {
    StepValid(x, s);
    if Enabled(x, s) {
      match s
      case Deliver(event, key) => DeliverBalances(x, event, key, e);
      case Preview(w) => PreviewBalances(x, w, e);
      case Succeed(w) => FinishBalances(x, w, true, None, x.workers[w].phase.indexed, x.workers[w].phase.rejected, e);
      case Fail(w, error) => FinishBalances(x, w, false, Some(error), 0, 0, e);
      case _ =>
    }
  }

  /** In every run, timely or not: an event's face counters are its photos' sums plus whatever
      later successes of the same photo replaced.  So they equal the sums exactly when nothing
      was replaced. */
  lemma {:induction false} BooksAlwaysBalance(x: World, steps: seq<Step>, e: nat)
    requires Initial(x) && e < |x.db.events|
    ensures |Run(x, steps).db.events| == |x.db.events| && Balanced(Run(x, steps), e)
    decreases |steps|
  {
    if steps != [] {
      BooksAlwaysBalance(x, steps[..|steps| - 1], e);
      StepBalances(Run(x, steps[..|steps| - 1]), steps[|steps| - 1], e);
    }
  }

  /** One success keeps each counter equal to its sum exactly when the photo had not been counted in it. */
  lemma SuccessKeepsSumIff(x: World, w: nat, indexed: nat, rejected: nat)
    requires Valid(x) && OnPhoto(x, w) && CountersAreSums(x.db, x.db.jobs[Current(x, w)].event)
    ensures var e, p := x.db.jobs[Current(x, w)].event, x.db.photos[Current(x, w)];
            var y := DoFinish(x, w, true, None, indexed, rejected);
            && |y.db.events| == |x.db.events|
            && (y.db.events[e].faceCount == Total(y.db.photos, e, IndexedOf) <==> p.facesIndexed == 0)
            && (y.db.events[e].facesRejected == Total(y.db.photos, e, RejectedOf) <==> p.facesRejected == 0)
  {
    var id := Current(x, w);
    var p := FinishPhoto(x.db.photos[id], Done, indexed, rejected);
    TotalUpdate(x.db.photos, id, p, x.db.jobs[id].event, IndexedOf);
    TotalUpdate(x.db.photos, id, p, x.db.jobs[id].event, RejectedOf);
  }

  ghost predicate CountersAreSums(db: Db, e: nat) {
    e < |db.events| && db.events[e].faceCount == Total(db.photos, e, IndexedOf)
    && db.events[e].facesRejected == Total(db.photos, e, RejectedOf)
  }

  // -------------------------------------------------------------------------
  // Readiness
  // -------------------------------------------------------------------------

  ghost predicate HasJobs(db: Db, e: nat) {
    exists j :: 0 <= j < |db.jobs| && db.jobs[j].event == e
  }

  ghost predicate StatusRight(db: Db, e: nat)
    requires e < |db.events|
  {
    db.events[e].status == if !HasJobs(db, e) then Draft else if db.Quiet(e) then Ready else Indexing
  }

  ghost predicate StatusesRight(db: Db) {
    forall e: nat :: e < |db.events| ==> StatusRight(db, e)
  }

  /** A failure report that sends a job of a ready event back to the queue. */
  ghost predicate Reopens(x: World, w: nat, ok: bool)
    requires Valid(x) && OnPhoto(x, w)
  {
    var j := x.db.jobs[Current(x, w)];
    !ok && j.attempts < j.maxAttempts && x.db.events[j.event].status == Ready
  }

  /** Nothing re-examines a ready event, so a report keeps the statuses right exactly when it
      does not reopen one. */
  lemma FinishStatusIff(x: World, w: nat, ok: bool, error: Option<string>, indexed: nat, rejected: nat)
    requires Valid(x) && OnPhoto(x, w) && StatusesRight(x.db)
    ensures StatusesRight(DoFinish(x, w, ok, error, indexed, rejected).db) <==> !Reopens(x, w, ok)
  {
    var y := DoFinish(x, w, ok, error, indexed, rejected);
    var id := Current(x, w);
    var f := x.db.jobs[id].event;
    assert y.db.jobs[id].event == f;
    assert StatusRight(x.db, f);
    forall e: nat | e < |x.db.events| && e != f ensures StatusRight(y.db, e) {
      assert StatusRight(x.db, e);
      SameJobsElsewhere(x.db, y.db, id, e);
    }
    if Reopens(x, w, ok) {
      assert y.db.jobs[id].state.Pending?;
      assert !StatusRight(y.db, f);
    } else {
      assert HasJobs(y.db, f);
      assert StatusRight(y.db, f);
    }
  }

  lemma SameJobsElsewhere(a: Db, b: Db, id: nat, e: nat)
    requires |a.jobs| == |b.jobs| && id < |a.jobs|
    requires forall j :: 0 <= j < |a.jobs| && j != id ==> a.jobs[j] == b.jobs[j]
    requires a.jobs[id].event == b.jobs[id].event != e
    ensures HasJobs(a, e) == HasJobs(b, e) && a.Quiet(e) == b.Quiet(e)
  {
    if HasJobs(a, e) {
      var j :| 0 <= j < |a.jobs| && a.jobs[j].event == e;
      assert b.jobs[j].event == e;
    }
    if HasJobs(b, e) {
      var j :| 0 <= j < |b.jobs| && b.jobs[j].event == e;
      assert a.jobs[j].event == e;
    }
    assert forall j :: 0 <= j < |a.jobs| && (a.jobs[j].event == e || b.jobs[j].event == e) ==> a.jobs[j] == b.jobs[j];
  }

  /** A job is taken from and left in the queue's open states. */
  lemma SameOpenness(a: Db, b: Db, e: nat)
    requires |a.jobs| == |b.jobs|
    requires forall j :: 0 <= j < |a.jobs| ==> a.jobs[j].event == b.jobs[j].event
    requires forall j :: 0 <= j < |a.jobs| ==>
      ((a.jobs[j].state.Pending? || a.jobs[j].state.Running?) <==> (b.jobs[j].state.Pending? || b.jobs[j].state.Running?))
    ensures HasJobs(a, e) == HasJobs(b, e) && a.Quiet(e) == b.Quiet(e)
  {
    if HasJobs(a, e) {
      var j :| 0 <= j < |a.jobs| && a.jobs[j].event == e;
      assert b.jobs[j].event == e;
    }
    if HasJobs(b, e) {
      var j :| 0 <= j < |b.jobs| && b.jobs[j].event == e;
      assert a.jobs[j].event == e;
    }
  }

  lemma DeliverStatus(x: World, event: nat, key: string)
    requires Valid(x) && event < |x.db.events| && StatusesRight(x.db)
    ensures StatusesRight(Upload(x.db, event, key, x.now))
  {
    var db := Upload(x.db, event, key, x.now);
    if !Stored(x.db, event, key) {
      var n := |x.db.jobs|;
      assert db.jobs[n].event == event && db.jobs[n].state.Pending?;
      forall e: nat | e < |db.events| ensures StatusRight(db, e) {
        assert StatusRight(x.db, e);
        if e != event && HasJobs(x.db, e) {
          var j :| 0 <= j < n && x.db.jobs[j].event == e;
          assert db.jobs[j].event == e;
        }
        assert forall j :: 0 <= j < n ==> db.jobs[j] == x.db.jobs[j];
      }
    }
  }

  lemma StepStatus(x: World, s: Step)
    requires Valid(x) && StatusesRight(x.db)
    requires (s.Succeed? || s.Fail?) && Enabled(x, s) ==> !Reopens(x, s.w, s.Succeed?)
    ensures StatusesRight(Next(x, s).db)
  {
    if Enabled(x, s) {
      match s
      case Deliver(event, key) => DeliverStatus(x, event, key);
      case Succeed(w) => FinishStatusIff(x, w, true, None, x.workers[w].phase.indexed, x.workers[w].phase.rejected);
      case Fail(w, error) => FinishStatusIff(x, w, false, Some(error), 0, 0);
      case _ =>
        var y := Next(x, s);
        forall e: nat | e < |y.db.events| ensures StatusRight(y.db, e) {
          assert StatusRight(x.db, e);
          SameOpenness(x.db, y.db, e);
        }
    }
  }

  // Runs that report running jobs only
  // -------------------------------------------------------------------------

  /** A report is of a job that is still running, whoever runs it by now. */
  ghost predicate ReportsRunning(x: World, s: Step) {
    (s.Succeed? || s.Fail?) && Enabled(x, s) && Current(x, s.w) < |x.db.jobs| ==> x.db.jobs[Current(x, s.w)].state.Running?
  }

  ghost predicate RunReportsRunning(x: World, steps: seq<Step>)
    requires Valid(x)
  {
    steps == [] ||
    (RunReportsRunning(x, steps[..|steps| - 1]) && ReportsRunning(Run(x, steps[..|steps| - 1]), steps[|steps| - 1]))
  }

  /** A photo whose job is open has not been counted yet, and nothing was ever replaced. */
  ghost predicate CountedOnce(x: World)
    requires Valid(x)
  {
    && (forall j :: 0 <= j < |x.db.jobs| && !x.db.jobs[j].state.Done? ==>
          x.db.photos[j].facesIndexed == x.db.photos[j].facesRejected == 0)
    && (forall e :: 0 <= e < |x.lostFaces| ==> x.lostFaces[e] == x.lostRejects[e] == 0)
  }

  lemma StepCountedOnce(x: World, s: Step)
    requires Valid(x) && ReportsRunning(x, s) && CountedOnce(x)
    ensures Valid(Next(x, s)) && CountedOnce(Next(x, s))
  {
    StepValid(x, s);
  }

  lemma RunningDoesNotReopen(x: World, w: nat, ok: bool)
    requires Valid(x) && OnPhoto(x, w) && x.db.jobs[Current(x, w)].state.Running? && StatusesRight(x.db)
    ensures !Reopens(x, w, ok)
  {
    assert StatusRight(x.db, x.db.jobs[Current(x, w)].event);
  }

  lemma {:induction false} RunningFacts(x: World, steps: seq<Step>)
    requires Initial(x) && RunReportsRunning(x, steps)
    ensures StatusesRight(Run(x, steps).db) && CountedOnce(Run(x, steps))
    decreases |steps|
  {
    if steps == [] {
      forall e: nat | e < |x.db.events| ensures StatusRight(x.db, e) {
      }
    } else {
      var before, s := Run(x, steps[..|steps| - 1]), steps[|steps| - 1];
      RunningFacts(x, steps[..|steps| - 1]);
      if (s.Succeed? || s.Fail?) && Enabled(before, s) {
        RunningDoesNotReopen(before, s.w, s.Succeed?);
      }
      StepStatus(before, s);
      StepCountedOnce(before, s);
    }
  }

  /** What an event's row should say about its photos. */
  ghost predicate AlbumRight(db: Db, e: nat)
    requires e < |db.events|
  {
    && (db.events[e].status == Ready <==> HasJobs(db, e) && db.Quiet(e))
    && db.events[e].photoCount == Total(db.photos, e, OneOf)
    && db.events[e].faceCount == Total(db.photos, e, IndexedOf)
    && db.events[e].facesRejected == Total(db.photos, e, RejectedOf)
  }

  /** In every run that reports running jobs only, an event with photos is ready exactly when all its
      jobs are done or failed, and its counters are its photos' sums. */
  lemma RunningAlbum(x: World, steps: seq<Step>, e: nat)
    requires Initial(x) && RunReportsRunning(x, steps) && e < |x.db.events|
    ensures |Run(x, steps).db.events| == |x.db.events| && AlbumRight(Run(x, steps).db, e)
  {
    RunningFacts(x, steps);
    BooksAlwaysBalance(x, steps, e);
    assert StatusRight(Run(x, steps).db, e);
  }

  /** Workers that report within their leases report running jobs only. */
  lemma {:induction false} TimelyReportsRunning(x: World, steps: seq<Step>)
    requires Initial(x) && TimelyRun(x, steps)
    ensures RunReportsRunning(x, steps)
    decreases |steps|
  {
    if steps != [] {
      var init, s := steps[..|steps| - 1], steps[|steps| - 1];
      TimelyReportsRunning(x, init);
      RunKeepsLeases(x, init);
      if (s.Succeed? || s.Fail?) && Enabled(Run(x, init), s) {
        TimelyIsNoTrespass(Run(x, init), s.w);
      }
    }
  }

  lemma TimelyAlbum(x: World, steps: seq<Step>, e: nat)
    requires Initial(x) && TimelyRun(x, steps) && e < |x.db.events|
    ensures |Run(x, steps).db.events| == |x.db.events| && AlbumRight(Run(x, steps).db, e)
  {
    TimelyReportsRunning(x, steps);
    RunningAlbum(x, steps, e);
  }

  // -------------------------------------------------------------------------
  // Uploads
  // -------------------------------------------------------------------------

  ghost function Keys(photos: seq<Photo>, e: nat): (r: set<string>) {
    set p | 0 <= p < |photos| && photos[p].event == e :: photos[p].key
  }

  ghost predicate KeysUnique(photos: seq<Photo>) {
    forall p, q :: 0 <= p < q < |photos| && photos[p].event == photos[q].event ==> photos[p].key != photos[q].key
  }

  /** The keys delivered to an existing event over a run, however often and in whatever order. */
  function Delivered(steps: seq<Step>, e: nat): (r: set<string>) {
    if steps == [] then {}
    else
      var s := steps[|steps| - 1];
      Delivered(steps[..|steps| - 1], e) + if s.Deliver? && s.event == e then {s.key} else {}
  }

  lemma {:induction false} CountIsKeys(photos: seq<Photo>, e: nat)
    requires KeysUnique(photos)
    ensures Total(photos, e, OneOf) == |Keys(photos, e)|
    decreases |photos|
  {
    if photos != [] {
      var init, last := photos[..|photos| - 1], photos[|photos| - 1];
      CountIsKeys(init, e);
      KeysAppend(init, last, e);
      assert init + [last] == photos;
      assert last.event == e ==> last.key !in Keys(init, e);
    }
  }

  lemma KeysAppend(photos: seq<Photo>, p: Photo, e: nat)
    ensures Keys(photos + [p], e) == Keys(photos, e) + if p.event == e then {p.key} else {}
  {
    var more := photos + [p];
    forall k | k in Keys(photos, e) ensures k in Keys(more, e) {
      var i :| 0 <= i < |photos| && photos[i].event == e && photos[i].key == k;
      assert more[i].event == e && more[i].key == k;
    }
    assert more[|photos|] == p;
  }

  lemma SameKeys(a: seq<Photo>, b: seq<Photo>, e: nat)
    requires |a| == |b| && forall p :: 0 <= p < |a| ==> a[p].event == b[p].event && a[p].key == b[p].key
    ensures Keys(a, e) == Keys(b, e) && (KeysUnique(a) ==> KeysUnique(b))
  {
  }

  lemma StepKeys(x: World, s: Step, e: nat)
    requires Valid(x) && KeysUnique(x.db.photos) && e < |x.db.events|
    ensures KeysUnique(Next(x, s).db.photos)
    ensures Keys(Next(x, s).db.photos, e) == Keys(x.db.photos, e) + if s.Deliver? && s.event == e then {s.key} else {}
  {
    var y := Next(x, s);
    if s.Deliver? && Enabled(x, s) {
      if Stored(x.db, s.event, s.key) {
        assert y.db.photos == x.db.photos;
      } else {
        KeysAppend(x.db.photos, Photo(s.event, s.key, Waiting, 0, 0, None, None), e);
      }
    } else {
      SameKeys(x.db.photos, y.db.photos, e);
    }
  }

  /** Whatever the batches, their order and their repeats, and whatever the workers did meanwhile:
      one photo and one job per distinct key, and a counter that says so. */
  lemma {:induction false} UploadsConverge(x: World, steps: seq<Step>, e: nat)
    requires Initial(x) && e < |x.db.events|
    ensures var db := Run(x, steps).db;
            && KeysUnique(db.photos) && Keys(db.photos, e) == Delivered(steps, e)
            && |db.jobs| == |db.photos|
            && e < |db.events| && db.events[e].photoCount == |Delivered(steps, e)|
    decreases |steps|
  {
    if steps != [] {
      var init := steps[..|steps| - 1];
      UploadsConverge(x, init, e);
      StepKeys(Run(x, init), steps[|steps| - 1], e);
    }
    BooksAlwaysBalance(x, steps, e);
    CountIsKeys(Run(x, steps).db.photos, e);
  }

  /** Sending files again is a no-op: a ready event stays ready. */
  lemma ReuploadChangesNothing(x: World, steps: seq<Step>, e: nat, key: string)
    requires Initial(x) && e < |x.db.events| && key in Delivered(steps, e)
    ensures Run(x, steps + [Deliver(e, key)]) == Run(x, steps)
  {
    UploadsConverge(x, steps, e);
    assert (steps + [Deliver(e, key)])[..|steps|] == steps;
    assert Stored(Run(x, steps).db, e, key);
  }
}
