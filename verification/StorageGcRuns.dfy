/** Database and bucket together: retention, uploads, several deletion workers, failed deletes,
    expired leases, stale reports and crashes, in every interleaving. */
module StorageGcRuns {
  import opened Wrappers
  import opened StorageKeys
  import opened StorageGc

  /** Between which two statements a worker is, on its current row. */
  datatype Phase = Fetching | Gone | Refused | Broke | Parking

  datatype WorkerState = Resting | Draining(rows: seq<nat>, pos: nat, phase: Phase)

  /** `used` and `retired` are history: every event id ever given out, and every address recorded by
      an event that retention deleted.  `home` is the bucket the workers are configured with. */
  datatype World = World(
    db: Db, objects: set<Place>, home: string, now: int, lease: nat, workers: seq<WorkerState>,
    used: set<string>, retired: set<Place>)

  datatype Step =
    | Wait(seconds: nat)
    | Create(id: string, deleteAfter: int)
    | Put(place: Place)                                              // bytes written by anybody
    | Record(event: string, bucket: string, hash: string, extension: string)
    | Derive(event: string, photo: nat)
    | Retain(ids: seq<string>)
    | Take(w: nat, rows: seq<nat>)
    | Delete(w: nat)
    | DeleteBreaks(w: nat, gone: bool)
    | DeleteRefused(w: nat)
    | ReportDone(w: nat)
    | ReportFailed(w: nat)
    | Park(w: nat)
    | Crash(w: nat)

  ghost predicate OnRow(x: World, w: nat) {
    && w < |x.workers| && x.workers[w].Draining?
    && x.workers[w].pos < |x.workers[w].rows|
    && x.workers[w].rows[x.workers[w].pos] < |x.db.queue|
  }

  function Current(x: World, w: nat): (id: nat)
    requires OnRow(x, w)
    ensures id < |x.db.queue|
  {
    x.workers[w].rows[x.workers[w].pos]
  }

  /** The address a delete reaches: the worker's own bucket and the row's key. */
  function Target(x: World, w: nat): Place
    requires OnRow(x, w)
  {
    Place(x.home, x.db.queue[Current(x, w)].place.key)
  }

  ghost predicate Enabled(x: World, s: Step) {
    match s
    case Wait(_) => true
    case Create(id, _) => Plain(id) && id !in x.used
    // the one assumption about writers: a retired address is never written again
    case Put(place) => place !in x.retired
    case Record(e, _, hash, extension) => e in x.db.events && Plain(hash) && Plain(extension)
    case Derive(e, p) => e in x.db.events && p < |x.db.events[e].photos|
    case Retain(ids) => IsDue(x.db.events, x.now, |ids|, ids)
    case Take(w, rows) => w < |x.workers| && x.workers[w].Resting? && rows != [] &&
      forall k :: 0 <= k < |rows| ==> rows[k] < |x.db.queue| && Claimable(x.db.queue[rows[k]], x.now)
    case Delete(w) => OnRow(x, w) && x.workers[w].phase.Fetching?
    case DeleteBreaks(w, _) => OnRow(x, w) && x.workers[w].phase.Fetching?
    case DeleteRefused(w) => OnRow(x, w) && x.workers[w].phase.Fetching?
    case ReportDone(w) => OnRow(x, w) && x.workers[w].phase.Gone?
    case ReportFailed(w) => OnRow(x, w) && (x.workers[w].phase.Broke? || x.workers[w].phase.Refused?)
    case Park(w) => OnRow(x, w) && x.workers[w].phase.Parking?
    case Crash(w) => w < |x.workers|
  }

  function AtPhase(x: World, w: nat, phase: Phase): World
    requires OnRow(x, w)
  {
    x.(workers := x.workers[w := x.workers[w].(phase := phase)])
  }

  function Advance(x: World, w: nat): World
    requires OnRow(x, w)
  {
    var d := x.workers[w];
    x.(workers := x.workers[w := if d.pos + 1 == |d.rows| then Resting else Draining(d.rows, d.pos + 1, Fetching)])
  }

  function SetRow(x: World, id: nat, r: Row): World
    requires id < |x.db.queue|
  {
    x.(db := x.db.(queue := x.db.queue[id := r]))
  }

  function AddPhoto(x: World, e: string, p: Photo): World
    requires e in x.db.events
  {
    var ev := x.db.events[e];
    x.(db := x.db.(events := x.db.events[e := ev.(photos := ev.photos + [p])]))
  }

  function SetDerivatives(p: Photo): Photo {
    p.(preview := Some(PreviewKey(p.key)), thumb := Some(ThumbKey(p.key)))
  }

  function DerivePhoto(x: World, e: string, i: nat): World
    requires e in x.db.events && i < |x.db.events[e].photos|
  {
    var ev := x.db.events[e];
    x.(db := x.db.(events := x.db.events[e := ev.(photos := ev.photos[i := SetDerivatives(ev.photos[i])])]))
  }

  /** The addresses an event's photos record. */
  ghost function Recorded(ev: Event): (r: set<Place>) {
    set p | p in Places(ev.photos)
  }

  /** What retention adds to the history. */
  ghost function RecordedBy(events: map<string, Event>, ids: seq<string>): (r: set<Place>)
    requires forall k :: 0 <= k < |ids| ==> ids[k] in events
  {
    if ids == [] then {} else RecordedBy(events, ids[..|ids| - 1]) + Recorded(events[ids[|ids| - 1]])
  }

  /** A step that is not enabled changes nothing. */
  ghost function Next(x: World, s: Step): World {
    if !Enabled(x, s) then x else
      match s
      case Wait(d) => x.(now := x.now + d)
      case Create(id, deleteAfter) =>
        x.(db := x.db.(events := x.db.events[id := Event(deleteAfter, [], 0)]), used := x.used + {id})
      case Put(place) => x.(objects := x.objects + {place})
      case Record(e, bucket, hash, extension) => AddPhoto(x, e, Photo(bucket, OriginalKey(e, hash, extension), None, None))
      case Derive(e, p) => DerivePhoto(x, e, p)
      case Retain(ids) => x.(db := RetireAll(x.db, ids, x.now), retired := x.retired + RecordedBy(x.db.events, ids))
      case Take(w, rows) =>
        x.(db := x.db.(queue := ClaimRows(x.db.queue, rows, x.now, x.lease)),
           workers := x.workers[w := Draining(rows, 0, Fetching)])
      case Delete(w) => AtPhase(x.(objects := x.objects - {Target(x, w)}), w, Gone)
      case DeleteBreaks(w, gone) =>
        AtPhase(if gone then x.(objects := x.objects - {Target(x, w)}) else x, w, Broke)
      case DeleteRefused(w) => AtPhase(x, w, Refused)
      case ReportDone(w) =>
        Advance(SetRow(x, Current(x, w), FinishRow(x.db.queue[Current(x, w)], true, x.now)), w)
      case ReportFailed(w) =>
        var y := SetRow(x, Current(x, w), FinishRow(x.db.queue[Current(x, w)], false, x.now));
        if x.workers[w].phase.Refused? then AtPhase(y, w, Parking) else Advance(y, w)
      case Park(w) =>
        Advance(SetRow(x, Current(x, w), x.db.queue[Current(x, w)].(state := Failed)), w)
      case Crash(w) => x.(workers := x.workers[w := Resting])
  }

  ghost function Run(x: World, steps: seq<Step>): World {
    if steps == [] then x else Next(Run(x, steps[..|steps| - 1]), steps[|steps| - 1])
  }

  ghost predicate Initial(x: World) {
    && x.db == Db(map[], [], []) && x.used == {} && x.retired == {}
    && (forall w :: 0 <= w < |x.workers| ==> x.workers[w] == Resting)
  }

  // -------------------------------------------------------------------------
  // What every run keeps, whatever bucket photos are recorded in
  // -------------------------------------------------------------------------

  /** Live events own exactly the keys that carry their id; queued keys carry a deleted one's. */
  ghost predicate Named(x: World) {
    && (forall e :: e in x.db.events ==> e in x.used && Plain(e))
    && (forall e, i :: e in x.db.events && 0 <= i < |x.db.events[e].photos| ==> OwnPhoto(e, x.db.events[e].photos[i]))
    && (forall i :: 0 <= i < |x.db.queue| ==> BuriedKey(x, x.db.queue[i].place.key))
  }

  ghost predicate OwnPhoto(e: string, p: Photo) {
    && EventOf(p.key) == EventOf(PreviewKey(p.key)) == EventOf(ThumbKey(p.key)) == e
    && (p.preview.Some? ==> p.preview.value == PreviewKey(p.key))
    && (p.thumb.Some? ==> p.thumb.value == ThumbKey(p.key))
  }

  ghost predicate BuriedKey(x: World, key: string) {
    EventOf(key) in x.used && EventOf(key) !in x.db.events
  }

  /** Every retired address has a row. */
  ghost predicate AllQueued(x: World) {
    forall p :: p in x.retired ==> Queued(x.db.queue, p)
  }

  /** And every row is a retired address. */
  ghost predicate OnlyRetired(x: World) {
    forall i :: 0 <= i < |x.db.queue| ==> x.db.queue[i].place in x.retired
  }

  lemma {:induction false} PlacesOwned(e: string, photos: seq<Photo>)
    requires forall i :: 0 <= i < |photos| ==> OwnPhoto(e, photos[i])
    ensures forall p :: p in Places(photos) ==> EventOf(p.key) == e
    decreases |photos|
  {
    if photos != [] {
      PlacesOwned(e, photos[1..]);
    }
  }

  lemma RetireNamed(x: World, db: Db, e: string, now: int)
    requires Named(x.(db := db)) && e in db.events
    ensures Named(x.(db := Retire(db, e, now)))
  {
    PlacesOwned(e, db.events[e].photos);
    var y := x.(db := Retire(db, e, now));
    forall i | 0 <= i < |y.db.queue| ensures BuriedKey(y, y.db.queue[i].place.key) {
      if i < |db.queue| {
        assert BuriedKey(x.(db := db), db.queue[i].place.key);
      }
    }
  }

  lemma {:induction false} RetainNamed(x: World, ids: seq<string>, now: int)
    requires Named(x) && DistinctIn(ids, x.db.events)
    ensures Named(x.(db := RetireAll(x.db, ids, now)))
    decreases |ids|
  {
    if ids != [] {
      var init := ids[..|ids| - 1];
      RetainNamed(x, init, now);
      var before := RetireAll(x.db, init, now);
      assert ids[|ids| - 1] in before.events;
      RetireNamed(x, before, ids[|ids| - 1], now);
    }
  }

  /** Workers change neither events nor the addresses of rows. */
  ghost predicate SameNames(x: World, y: World) {
    && y.db.events == x.db.events && y.used == x.used && y.retired == x.retired && y.home == x.home
    && |y.db.queue| == |x.db.queue|
    && (forall i :: 0 <= i < |x.db.queue| ==> y.db.queue[i].place == x.db.queue[i].place)
  }

  ghost predicate WorkerStep(s: Step) {
    s.Wait? || s.Put? || s.Take? || s.Delete? || s.DeleteBreaks? || s.DeleteRefused? || s.ReportDone? || s.ReportFailed?
    || s.Park? || s.Crash?
  }

  lemma WorkersRenameNothing(x: World, s: Step)
    requires WorkerStep(s)
    ensures SameNames(x, Next(x, s))
  {
  }

  lemma SameNamesNamed(x: World, y: World)
    requires Named(x) && SameNames(x, y)
    ensures Named(y)
  {
    forall i | 0 <= i < |y.db.queue| ensures BuriedKey(y, y.db.queue[i].place.key) {
      assert BuriedKey(x, x.db.queue[i].place.key);
    }
  }

  lemma CreateNamed(x: World, id: string, deleteAfter: int)
    requires Named(x) && Enabled(x, Create(id, deleteAfter))
    ensures Named(Next(x, Create(id, deleteAfter)))
  {
    var y := Next(x, Create(id, deleteAfter));
    forall i | 0 <= i < |y.db.queue| ensures BuriedKey(y, y.db.queue[i].place.key) {
      assert BuriedKey(x, x.db.queue[i].place.key);
    }
  }

  /** Replacing one live event's photos by photos of its own. */
  lemma PhotosNamed(x: World, e: string, ev: Event)
    requires Named(x) && e in x.db.events
    requires forall i :: 0 <= i < |ev.photos| ==> OwnPhoto(e, ev.photos[i])
    ensures Named(x.(db := x.db.(events := x.db.events[e := ev])))
  {
    var y := x.(db := x.db.(events := x.db.events[e := ev]));
    forall i | 0 <= i < |y.db.queue| ensures BuriedKey(y, y.db.queue[i].place.key) {
      assert BuriedKey(x, x.db.queue[i].place.key);
    }
  }

  lemma StepNamed(x: World, s: Step)
    requires Named(x)
    ensures Named(Next(x, s))
  {
    if Enabled(x, s) {
      match s
      case Create(id, deleteAfter) => CreateNamed(x, id, deleteAfter);
      case Record(e, bucket, hash, extension) =>
        KeysCarryEvent(e, hash, extension);
        var ev := x.db.events[e];
        PhotosNamed(x, e, ev.(photos := ev.photos + [Photo(bucket, OriginalKey(e, hash, extension), None, None)]));
      case Derive(e, p) =>
        var ev := x.db.events[e];
        PhotosNamed(x, e, ev.(photos := ev.photos[p := SetDerivatives(ev.photos[p])]));
      case Retain(ids) =>
        RetainNamed(x, ids, x.now);
        SameNamed(x.(db := RetireAll(x.db, ids, x.now)), Next(x, s));
      case _ =>
        WorkersRenameNothing(x, s);
        SameNamesNamed(x, Next(x, s));
    }
  }

  lemma SameNamed(x: World, y: World)
    requires Named(x) && x.db == y.db && x.used == y.used
    ensures Named(y)
  {
    forall i | 0 <= i < |y.db.queue| ensures BuriedKey(y, y.db.queue[i].place.key) {
      assert BuriedKey(x, x.db.queue[i].place.key);
    }
  }

  lemma {:induction false} RunNamed(x: World, steps: seq<Step>)
    requires Initial(x)
    ensures Named(Run(x, steps))
    decreases |steps|
  {
    if steps != [] {
      RunNamed(x, steps[..|steps| - 1]);
      StepNamed(Run(x, steps[..|steps| - 1]), steps[|steps| - 1]);
    }
  }

  /** No delete ever reaches an object of a live event -- recorded or not, the key of such an object
      carries the event's id, and the key being deleted carries a dead one's. */
  lemma LiveEventsUntouched(x: World, steps: seq<Step>, w: nat, e: string)
    requires Initial(x)
    requires var y := Run(x, steps); OnRow(y, w) && e in y.db.events
    ensures var y := Run(x, steps); EventOf(Target(y, w).key) != e && Target(y, w) !in Recorded(y.db.events[e])
  {
    RunNamed(x, steps);
    var y := Run(x, steps);
    assert BuriedKey(y, y.db.queue[Current(y, w)].place.key);
    PlacesOwned(e, y.db.events[e].photos);
  }

  // -------------------------------------------------------------------------
  // Erasure
  // -------------------------------------------------------------------------

  lemma QueuedStays(a: seq<Row>, b: seq<Row>, p: Place)
    requires Queued(a, p) && |a| <= |b| && forall i :: 0 <= i < |a| ==> b[i].place == a[i].place
    ensures Queued(b, p)
  {
    var i :| 0 <= i < |a| && a[i].place == p;
    assert b[i].place == p;
  }

  lemma {:induction false} RetainQueues(db: Db, ids: seq<string>, now: int)
    requires DistinctIn(ids, db.events)
    ensures var r := RetireAll(db, ids, now);
            && db.queue <= r.queue
            && (forall p :: p in RecordedBy(db.events, ids) ==> Queued(r.queue, p))
            && (forall i :: |db.queue| <= i < |r.queue| ==>
                  r.queue[i].place in RecordedBy(db.events, ids) && r.queue[i].state.Pending?)
    decreases |ids|
  {
    if ids != [] {
      var init, last := ids[..|ids| - 1], ids[|ids| - 1];
      RetainQueues(db, init, now);
      var before := RetireAll(db, init, now);
      assert last in before.events && before.events[last] == db.events[last];
      var r := RetireAll(db, ids, now);
      assert r == Retire(before, last, now);
      forall p | p in RecordedBy(db.events, ids) ensures Queued(r.queue, p) {
        if p in RecordedBy(db.events, init) {
          QueuedStays(before.queue, r.queue, p);
        }
      }
    }
  }

  /** The row the worker has deleted but not yet reported is free of bytes. */
  ghost predicate Emptied(x: World, w: nat) {
    OnRow(x, w) && x.workers[w].phase.Gone? ==> Target(x, w) !in x.objects
  }

  ghost predicate Safe(x: World) {
    && AllQueued(x) && OnlyRetired(x)
    && (forall i :: 0 <= i < |x.db.queue| && x.db.queue[i].state.Done? ==> x.db.queue[i].place !in x.objects)
    && (forall w: nat :: Emptied(x, w))
  }

  /** Photos are recorded in the bucket the workers are configured with. */
  ghost predicate HomeOnly(x: World) {
    && (forall i :: 0 <= i < |x.db.queue| ==> x.db.queue[i].place.bucket == x.home)
    && (forall e, i :: e in x.db.events && 0 <= i < |x.db.events[e].photos| ==> x.db.events[e].photos[i].bucket == x.home)
  }

  ghost predicate OneBucket(x: World, s: Step) {
    s.Record? ==> s.bucket == x.home
  }

  ghost predicate OneBucketRun(x: World, steps: seq<Step>) {
    steps == [] || (OneBucketRun(x, steps[..|steps| - 1]) && OneBucket(x, steps[|steps| - 1]))
  }

  // -- rows and photos stay in one bucket

  lemma {:induction false} PlacesHome(photos: seq<Photo>, home: string)
    requires forall i :: 0 <= i < |photos| ==> photos[i].bucket == home
    ensures forall p :: p in Places(photos) ==> p.bucket == home
    decreases |photos|
  {
    if photos != [] {
      PlacesHome(photos[1..], home);
    }
  }

  lemma {:induction false} RecordedHome(events: map<string, Event>, ids: seq<string>, home: string)
    requires forall k :: 0 <= k < |ids| ==> ids[k] in events
    requires forall e, i :: e in events && 0 <= i < |events[e].photos| ==> events[e].photos[i].bucket == home
    ensures forall p :: p in RecordedBy(events, ids) ==> p.bucket == home
    decreases |ids|
  {
    if ids != [] {
      RecordedHome(events, ids[..|ids| - 1], home);
      PlacesHome(events[ids[|ids| - 1]].photos, home);
    }
  }

  lemma StepHome(x: World, s: Step)
    requires HomeOnly(x) && OneBucket(x, s)
    ensures HomeOnly(Next(x, s)) && Next(x, s).home == x.home
  {
    if WorkerStep(s) {
      WorkersRenameNothing(x, s);
    } else if s.Retain? && Enabled(x, s) {
      RetainQueues(x.db, s.ids, x.now);
      RecordedHome(x.db.events, s.ids, x.home);
    }
  }

  // -- each kind of step is safe

  lemma RetainSafe(x: World, ids: seq<string>)
    requires Safe(x) && Enabled(x, Retain(ids)) && WorkersInQueue(x)
    ensures Safe(Next(x, Retain(ids)))
  {
    var y := Next(x, Retain(ids));
    RetainQueues(x.db, ids, x.now);
    forall p | p in y.retired ensures Queued(y.db.queue, p) {
      if p in x.retired {
        QueuedStays(x.db.queue, y.db.queue, p);
      }
    }
    forall i | 0 <= i < |y.db.queue| && y.db.queue[i].state.Done? ensures y.db.queue[i].place !in y.objects {
      assert y.db.queue[i] == x.db.queue[i];
    }
    forall w: nat ensures Emptied(y, w) {
      assert Emptied(x, w);
    }
  }

  /** Claimed ids are ids of rows. */
  ghost predicate WorkersInQueue(x: World) {
    forall w, k :: 0 <= w < |x.workers| && x.workers[w].Draining? && 0 <= k < |x.workers[w].rows| ==>
      x.workers[w].rows[k] < |x.db.queue|
  }

  lemma StepInQueue(x: World, s: Step)
    requires WorkersInQueue(x)
    ensures WorkersInQueue(Next(x, s))
  {
    if s.Retain? && Enabled(x, s) {
      RetainQueues(x.db, s.ids, x.now);
    }
  }

  /** No step but a report of success makes a row done, and no step but a write adds an object. */
  lemma QuietStepSafe(x: World, s: Step)
    requires Safe(x) && HomeOnly(x) && WorkerStep(s) && !s.ReportDone?
    ensures Safe(Next(x, s))
  {
    var y := Next(x, s);
    WorkersRenameNothing(x, s);
    forall p | p in y.retired ensures Queued(y.db.queue, p) {
      QueuedStays(x.db.queue, y.db.queue, p);
    }
    forall i | 0 <= i < |y.db.queue| && y.db.queue[i].state.Done? ensures y.db.queue[i].place !in y.objects {
      assert x.db.queue[i].state.Done?;
      assert x.db.queue[i].place in x.retired;
    }
    forall w: nat ensures Emptied(y, w) {
      QuietStepEmptied(x, s, w);
    }
  }

  lemma QuietStepEmptied(x: World, s: Step, w: nat)
    requires Safe(x) && WorkerStep(s) && !s.ReportDone? && HomeOnly(x)
    ensures Emptied(Next(x, s), w)
  {
    var y := Next(x, s);
    WorkersRenameNothing(x, s);
    assert Emptied(x, w);
    if OnRow(y, w) && y.workers[w].phase.Gone? && Enabled(x, s) {
      assert y.db.queue[Current(y, w)].place in x.retired;
    }
  }

  lemma ReportDoneSafe(x: World, w: nat)
    requires Safe(x) && HomeOnly(x)
    ensures Safe(Next(x, ReportDone(w)))
  {
    var y := Next(x, ReportDone(w));
    WorkersRenameNothing(x, ReportDone(w));
    forall p | p in y.retired ensures Queued(y.db.queue, p) {
      QueuedStays(x.db.queue, y.db.queue, p);
    }
    assert Emptied(x, w);
    forall v: nat ensures Emptied(y, v) {
      assert Emptied(x, v);
    }
  }

  lemma StepSafe(x: World, s: Step)
    requires Safe(x) && HomeOnly(x) && WorkersInQueue(x)
    ensures Safe(Next(x, s))
  {
    if s.ReportDone? {
      ReportDoneSafe(x, s.w);
    } else if WorkerStep(s) {
      QuietStepSafe(x, s);
    } else if s.Retain? {
      if Enabled(x, s) {
        RetainSafe(x, s.ids);
      }
    } else {
      forall w: nat ensures Emptied(Next(x, s), w) {
        assert Emptied(x, w);
      }
    }
  }

  lemma {:induction false} RunSafe(x: World, steps: seq<Step>)
    requires Initial(x) && OneBucketRun(x, steps)
    ensures Safe(Run(x, steps)) && HomeOnly(Run(x, steps)) && WorkersInQueue(Run(x, steps))
    decreases |steps|
  {
    if steps != [] {
      var before, s := Run(x, steps[..|steps| - 1]), steps[|steps| - 1];
      RunSafe(x, steps[..|steps| - 1]);
      RunHome(x, steps[..|steps| - 1]);
      StepSafe(before, s);
      StepHome(before, s);
      StepInQueue(before, s);
    }
  }

  lemma {:induction false} RunHome(x: World, steps: seq<Step>)
    ensures Run(x, steps).home == x.home
    decreases |steps|
  {
    if steps != [] {
      RunHome(x, steps[..|steps| - 1]);
    }
  }

  /** In every interleaving: an object that retention promised to erase and that is still in the
      bucket has a row that is not done, so an empty backlog means nothing is left. */
  lemma ErasureComplete(x: World, steps: seq<Step>)
    requires Initial(x) && OneBucketRun(x, steps)
    ensures var y := Run(x, steps);
            && (forall p :: p in y.retired && p in y.objects ==>
                  exists i :: 0 <= i < |y.db.queue| && y.db.queue[i].place == p && !y.db.queue[i].state.Done?)
            && (Drained(y.db.queue) ==> y.retired !! y.objects)
  {
    RunSafe(x, steps);
    var y := Run(x, steps);
    forall p | p in y.retired && p in y.objects
      ensures exists i :: 0 <= i < |y.db.queue| && y.db.queue[i].place == p && !y.db.queue[i].state.Done?
    {
      assert Queued(y.db.queue, p);
      var i :| 0 <= i < |y.db.queue| && y.db.queue[i].place == p;
    }
    CountZero(y.db.queue, Pending);
    CountZero(y.db.queue, Failed);
    if Drained(y.db.queue) {
      forall p | p in y.retired ensures p !in y.objects {
        assert Queued(y.db.queue, p);
        var i :| 0 <= i < |y.db.queue| && y.db.queue[i].place == p;
        assert y.db.queue[i].state != Pending && y.db.queue[i].state != Failed;
      }
    }
  }

  /** Why the bucket matters: the worker deletes in its own bucket whatever bucket the row names.
      Deleting and reporting a row whose object exists leaves the row done and the object in
      place exactly when the row names another bucket. */
  lemma DoneButPresentIffForeign(x: World, w: nat)
    requires OnRow(x, w) && x.workers[w].phase.Fetching? && x.db.queue[Current(x, w)].place in x.objects
    ensures var id := Current(x, w);
            var y := Next(Next(x, Delete(w)), ReportDone(w));
            && |y.db.queue| == |x.db.queue| && y.db.queue[id].state.Done?
            && (y.db.queue[id].place in y.objects <==> x.db.queue[id].place.bucket != x.home)
  {
    var y := Next(x, Delete(w));
    assert Enabled(y, ReportDone(w));
  }
}
