/** The ingest queue's tables and what each statement does to them. */
module Ingest {
  import opened Wrappers
  import opened Claims
  import opened StorageKeys

  datatype JobState = Pending | Running | Done | Failed

  datatype PhotoStatus = Waiting | Processing | Indexed | DeadLettered

  datatype EventStatus = Draft | Indexing | Ready

  type Face = int
  type Worker = nat

  datatype Job = Job(
    photo: nat, event: nat, state: JobState, attempts: nat, maxAttempts: int, runAfter: int,
    lockedBy: Option<Worker>, lockedUntil: Option<int>, lastError: Option<string>)

  datatype Photo = Photo(
    event: nat, key: string, status: PhotoStatus, facesIndexed: nat, facesRejected: nat,
    preview: Option<string>, thumb: Option<string>)

  datatype Event = Event(status: EventStatus, photoCount: nat, faceCount: nat, facesRejected: nat)

  /** Row `i` of `jobs`, `photos` and `faces` is job `i`, its photo, and that photo's face rows:
      one transaction inserts a photo and its job, and nothing here deletes either. */
  datatype Db = Db(jobs: seq<Job>, photos: seq<Photo>, faces: seq<seq<Face>>, events: seq<Event>) {

    ghost predicate Valid() {
      && |jobs| == |photos| == |faces|
      && (forall j :: 0 <= j < |jobs| ==> jobs[j].photo == j)
      && (forall j :: 0 <= j < |jobs| ==> jobs[j].event == photos[j].event < |events|)
    }

    /** Nothing of event `e` is left to do. */
    predicate Quiet(e: nat) {
      forall j :: 0 <= j < |jobs| && jobs[j].event == e ==> !jobs[j].state.Pending? && !jobs[j].state.Running?
    }
  }

  const DEFAULT_MAX_ATTEMPTS := 5
  const BACKOFF_CAP := 600

  function Backoff(attempts: nat): (r: nat)
    ensures r <= BACKOFF_CAP && r <= Pow2(attempts)
  {
    if Pow2(attempts) <= BACKOFF_CAP then Pow2(attempts) else BACKOFF_CAP
  }

  // -------------------------------------------------------------------------
  // What each statement does
  // -------------------------------------------------------------------------

  predicate Claimable(j: Job, now: int) {
    && j.runAfter <= now
    && (j.state.Pending? || (j.state.Running? && j.lockedUntil.Some? && j.lockedUntil.value < now))
  }

  function ClaimJob(j: Job, worker: Worker, now: int, lease: nat): Job {
    j.(state := Running, attempts := j.attempts + 1, lockedBy := Some(worker), lockedUntil := Some(now + lease))
  }

  function ClaimAll(db: Db, chosen: seq<nat>, worker: Worker, now: int, lease: nat): (r: Db)
    ensures |r.jobs| == |db.jobs|
    ensures forall j :: 0 <= j < |db.jobs| ==>
      r.jobs[j] == if j in chosen then ClaimJob(db.jobs[j], worker, now, lease) else db.jobs[j]
  {
    db.(jobs := seq(|db.jobs|, j requires 0 <= j < |db.jobs| =>
      if j in chosen then ClaimJob(db.jobs[j], worker, now, lease) else db.jobs[j]))
  }

  /** Extend the lease of every listed job that is running, whoever runs it. */
  function Renew(db: Db, ids: seq<nat>, now: int, lease: nat): (r: Db)
    ensures |r.jobs| == |db.jobs|
    ensures forall j :: 0 <= j < |db.jobs| ==>
      r.jobs[j] == if j in ids && db.jobs[j].state.Running? then db.jobs[j].(lockedUntil := Some(now + lease)) else db.jobs[j]
  {
    db.(jobs := seq(|db.jobs|, j requires 0 <= j < |db.jobs| =>
      if j in ids && db.jobs[j].state.Running? then db.jobs[j].(lockedUntil := Some(now + lease)) else db.jobs[j]))
  }

  function Release(j: Job, state: JobState, error: Option<string>): Job {
    j.(state := state, lockedBy := None, lockedUntil := None, lastError := error)
  }

  /** The state a job is left in. */
  function Outcome(j: Job, ok: bool): JobState {
    if ok then Done else if j.attempts >= j.maxAttempts then Failed else Pending
  }

  function FinishJob(j: Job, ok: bool, error: Option<string>, now: int): Job {
    match Outcome(j, ok)
    case Done => Release(j, Done, None)
    case Pending => Release(j, Pending, error).(runAfter := now + Backoff(j.attempts))
    case _ => Release(j, Failed, error)
  }

  function FinishPhoto(p: Photo, outcome: JobState, indexed: nat, rejected: nat): Photo {
    match outcome
    case Done => p.(status := PhotoStatus.Indexed, facesIndexed := indexed, facesRejected := rejected)
    case Pending => p.(status := Waiting)
    case _ => p.(status := DeadLettered)
  }

  function FinishEvent(e: Event, ok: bool, indexed: nat, rejected: nat, quiet: bool): Event {
    var counted := if ok then e.(faceCount := e.faceCount + indexed, facesRejected := e.facesRejected + rejected) else e;
    if counted.status == Indexing && quiet then counted.(status := Ready) else counted
  }

  /** finish_ingest_job on an existing job. */
  function Finish(db: Db, id: nat, ok: bool, error: Option<string>, indexed: nat, rejected: nat, now: int): (r: Db)
    requires db.Valid() && id < |db.jobs|
    ensures r.Valid() && |r.jobs| == |db.jobs| && |r.events| == |db.events| && r.faces == db.faces
  {
    var j := db.jobs[id];
    var jobs := db.jobs[id := FinishJob(j, ok, error, now)];
    var photos := db.photos[id := FinishPhoto(db.photos[id], Outcome(j, ok), indexed, rejected)];
    var quiet := Db(jobs, photos, db.faces, db.events).Quiet(j.event);
    Db(jobs, photos, db.faces,
       db.events[j.event := FinishEvent(db.events[j.event], ok, indexed, rejected, quiet)])
  }

  /** The job and its photo after a report: finished, failed for good when its attempts are spent, or due again later. */
  ghost predicate ReportedRows(before: Db, after: Db, id: nat, ok: bool, error: Option<string>, now: int) {
    && id < |before.jobs| && id < |after.jobs| && id < |after.photos|
    && var was, job, photo := before.jobs[id], after.jobs[id], after.photos[id];
       && job.lockedBy.None? && job.lockedUntil.None? && job.attempts == was.attempts
       && (ok ==> job.state.Done? && photo.status.Indexed? && job.lastError.None?)
       && (!ok ==> job.lastError == error)
       && (!ok && was.attempts >= was.maxAttempts ==> job.state.Failed? && photo.status.DeadLettered?)
       && (!ok && was.attempts < was.maxAttempts ==>
             job.state.Pending? && photo.status.Waiting?
             && job.runAfter == now + if Pow2(was.attempts) <= 600 then Pow2(was.attempts) else 600)
  }

  /** The two derivatives are recorded and the photo is under way. */
  function WithDerivatives(p: Photo, preview: string, thumb: string): (r: Photo) {
    p.(status := Processing, preview := Some(preview), thumb := Some(thumb))
  }

  function Derive(db: Db, id: nat, preview: string, thumb: string): (r: Db)
    requires id < |db.photos|
  {
    db.(photos := db.photos[id := WithDerivatives(db.photos[id], preview, thumb)])
  }

  function Replace(db: Db, id: nat, rows: seq<Face>): (r: Db)
    requires id < |db.faces|
  {
    db.(faces := db.faces[id := rows])
  }

  predicate Stored(db: Db, event: nat, key: string) {
    exists p :: 0 <= p < |db.photos| && db.photos[p].event == event && db.photos[p].key == key
  }

  /** The upload transaction: a photo, its job and the event's counter, or nothing. */
  function Upload(db: Db, event: nat, key: string, now: int): (r: Db)
    requires db.Valid() && event < |db.events|
    ensures r.Valid() && |r.events| == |db.events|
  {
    if Stored(db, event, key) then db
    else
      var e := db.events[event];
      Db(db.jobs + [Job(|db.jobs|, event, Pending, 0, DEFAULT_MAX_ATTEMPTS, now, None, None, None)],
         db.photos + [Photo(event, key, Waiting, 0, 0, None, None)],
         db.faces + [[]],
         db.events[event := e.(photoCount := e.photoCount + 1, status := Indexing)])
  }

  // -------------------------------------------------------------------------
  // Claim order
  // -------------------------------------------------------------------------

  /** `order by run_after, id`. */
  function Keys(jobs: seq<Job>): (r: seq<int>)
    ensures |r| == |jobs| && forall i :: 0 <= i < |r| ==> r[i] == jobs[i].runAfter
  {
    seq(|jobs|, i requires 0 <= i < |jobs| => jobs[i].runAfter)
  }

  /** The rows a claim may take: claimable, and not row-locked by another transaction. */
  function Candidates(jobs: seq<Job>, now: int, skipped: set<nat>): (r: set<nat>)
    ensures RowsOf(Keys(jobs), r)
  {
    set j: nat | 0 <= j < |jobs| && Claimable(jobs[j], now) && j !in skipped
  }

  // -------------------------------------------------------------------------
  // The tables, updated in place
  // -------------------------------------------------------------------------

  class Store {
    var jobs: seq<Job>
    var photos: seq<Photo>
    var faces: seq<seq<Face>>
    var events: seq<Event>

    ghost function Tables(): (r: Db)
      reads this
    {
      Db(jobs, photos, faces, events)
    }

    /** claim_ingest_jobs: pick the batch, then mark it. */
    method Claim(worker: Worker, limit: nat, now: int, lease: nat, skipped: set<nat>) returns (batch: seq<nat>)
      modifies this
      ensures IsBatch(Keys(old(jobs)), Candidates(old(jobs), now, skipped), limit, batch)
      ensures Tables() == ClaimAll(old(Tables()), batch, worker, now, lease)
    {
      batch := FirstBatch(Keys(jobs), Candidates(jobs, now, skipped), limit);
      for j := 0 to |jobs|
        invariant |jobs| == |old(jobs)| && photos == old(photos) && faces == old(faces) && events == old(events)
        invariant forall i :: 0 <= i < |jobs| ==>
          jobs[i] == if i < j && i in batch then ClaimJob(old(jobs)[i], worker, now, lease) else old(jobs)[i]
      {
        if j in batch {
          jobs := jobs[j := ClaimJob(jobs[j], worker, now, lease)];
        }
      }
    }

    method Heartbeat(ids: seq<nat>, now: int, lease: nat)
      modifies this
      ensures Tables() == Renew(old(Tables()), ids, now, lease)
    {
      for j := 0 to |jobs|
        invariant |jobs| == |old(jobs)| && photos == old(photos) && faces == old(faces) && events == old(events)
        invariant forall i :: 0 <= i < |jobs| ==>
          jobs[i] == if i < j && i in ids && old(jobs)[i].state.Running?
                     then old(jobs)[i].(lockedUntil := Some(now + lease)) else old(jobs)[i]
      {
        if j in ids && jobs[j].state == Running {
          jobs := jobs[j := jobs[j].(lockedUntil := Some(now + lease))];
        }
      }
    }

    /** finish_ingest_job.  None is the exception for an unknown id, which changes nothing. */
    method FinishJobRow(id: nat, ok: bool, error: Option<string>, indexed: nat, rejected: nat, now: int)
        returns (state: Option<JobState>)
      requires Tables().Valid()
      modifies this
      ensures id >= |old(jobs)| ==> state == None && Tables() == old(Tables())
      ensures id < |old(jobs)| ==> state == Some(Outcome(old(jobs)[id], ok))
      ensures id < |old(jobs)| ==> Tables() == Finish(old(Tables()), id, ok, error, indexed, rejected, now)
      ensures id < |old(jobs)| ==> ReportedRows(old(Tables()), Tables(), id, ok, error, now)
    {
      if id >= |jobs| {
        return None;
      }
      var j := jobs[id];
      var v: JobState;
      if ok {
        jobs := jobs[id := Release(j, Done, None)];
        photos := photos[id := photos[id].(status := PhotoStatus.Indexed, facesIndexed := indexed, facesRejected := rejected)];
        var e := events[j.event];
        events := events[j.event := e.(faceCount := e.faceCount + indexed, facesRejected := e.facesRejected + rejected)];
        v := Done;
      } else if j.attempts >= j.maxAttempts {
        v := Failed;
        jobs := jobs[id := Release(j, Failed, error)];
        photos := photos[id := photos[id].(status := DeadLettered)];
      } else {
        v := Pending;
        jobs := jobs[id := Release(j, Pending, error).(runAfter := now + Backoff(j.attempts))];
        photos := photos[id := photos[id].(status := Waiting)];
      }
      var quiet := NothingLeft(j.event);
      if events[j.event].status == Indexing && quiet {
        events := events[j.event := events[j.event].(status := Ready)];
      }
      return Some(v);
    }

    method NothingLeft(event: nat) returns (quiet: bool)
      ensures quiet == Tables().Quiet(event)
    {
      for j := 0 to |jobs|
        invariant forall i :: 0 <= i < j && jobs[i].event == event ==> !jobs[i].state.Pending? && !jobs[i].state.Running?
      {
        if jobs[j].event == event && (jobs[j].state == Pending || jobs[j].state == Running) {
          return false;
        }
      }
      return true;
    }

    method StoreDerivatives(id: nat, preview: string, thumb: string)
      requires id < |photos|
      modifies this
      ensures Tables() == Derive(old(Tables()), id, preview, thumb)
    {
      photos := photos[id := photos[id].(preview := Some(preview), thumb := Some(thumb), status := Processing)];
    }

    /** Delete then insert, one row at a time, in one transaction. */
    method ReplaceFaces(id: nat, rows: seq<Face>)
      requires id < |faces|
      modifies this
      ensures Tables() == Replace(old(Tables()), id, rows)
    {
      faces := faces[id := []];
      for k := 0 to |rows|
        invariant jobs == old(jobs) && photos == old(photos) && events == old(events)
        invariant faces == old(faces)[id := rows[..k]]
      {
        faces := faces[id := faces[id] + [rows[k]]];
        assert rows[..k] + [rows[k]] == rows[..k + 1];
      }
      assert rows[..|rows|] == rows;
    }

    /** process_one, when no step of it raises: None is the missing original.  The derivatives are recorded
        before the faces are replaced, under keys made of the photo's own. */
    method ProcessOne(id: nat, stored: bool, rows: seq<Face>, rejected: nat) returns (counts: Option<(nat, nat)>)
      requires Tables().Valid() && id < |photos|
      modifies this
      ensures counts == if stored then Some((|rows|, rejected)) else None
      ensures !stored ==> Tables() == old(Tables())
      ensures stored ==> Tables() == old(Tables()).(
        photos := old(photos)[id := WithDerivatives(old(photos)[id], PreviewKey(old(photos)[id].key), ThumbKey(old(photos)[id].key))],
        faces := old(faces)[id := rows])
    {
      if !stored {
        return None;
      }
      var key := photos[id].key;
      StoreDerivatives(id, PreviewKey(key), ThumbKey(key));
      ReplaceFaces(id, rows);
      return Some((|rows|, rejected));
    }

    method InsertPhoto(event: nat, key: string, now: int) returns (inserted: bool)
      requires Tables().Valid() && event < |events|
      modifies this
      ensures Tables() == Upload(old(Tables()), event, key, now)
      ensures inserted == !Stored(old(Tables()), event, key)
      // the new job can be claimed at once, with all its attempts before it
      ensures inserted ==>
        && |jobs| == |old(jobs)| + 1 && Claimable(jobs[|old(jobs)|], now)
        && jobs[|old(jobs)|].attempts == 0 && jobs[|old(jobs)|].maxAttempts == 5
    {
      for p := 0 to |photos|
        invariant forall q :: 0 <= q < p ==> !(photos[q].event == event && photos[q].key == key)
      {
        if photos[p].event == event && photos[p].key == key {
          return false;
        }
      }
      jobs := jobs + [Job(|jobs|, event, Pending, 0, DEFAULT_MAX_ATTEMPTS, now, None, None, None)];
      photos := photos + [Photo(event, key, Waiting, 0, 0, None, None)];
      faces := faces + [[]];
      events := events[event := events[event].(photoCount := events[event].photoCount + 1, status := Indexing)];
      return true;
    }
  }
}
