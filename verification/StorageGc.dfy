/** Retention and the deletion queue: the tables, their statements, and the worker that drains them. */
module StorageGc {
  import opened Wrappers
  import opened Claims
  import opened StorageKeys

  /** An object's address: bucket and key. */
  datatype Place = Place(bucket: string, key: string)

  datatype Photo = Photo(bucket: string, key: string, preview: Option<string>, thumb: Option<string>)

  datatype Event = Event(deleteAfter: int, photos: seq<Photo>, faces: nat)

  datatype RowState = Pending | Done | Failed

  datatype Row = Row(
    event: string, place: Place, state: RowState, attempts: nat, maxAttempts: nat,
    runAfter: int, lockedUntil: Option<int>, createdAt: int)

  datatype Audit = Audit(event: string, photosDeleted: nat, facesDeleted: nat, storageEnqueued: nat)

  datatype Db = Db(events: map<string, Event>, queue: seq<Row>, audit: seq<Audit>)

  const MAX_ATTEMPTS := 8
  const BACKOFF_CAP := 3600
  const MIN_BACKOFF := 2

  // -------------------------------------------------------------------------
  // Retention
  // -------------------------------------------------------------------------

  function PhotoPlaces(p: Photo): (r: seq<Place>) {
    [Place(p.bucket, p.key)]
    + (if p.preview.Some? then [Place(p.bucket, p.preview.value)] else [])
    + (if p.thumb.Some? then [Place(p.bucket, p.thumb.value)] else [])
  }

  /** Every object an event's photos record: original, preview, thumbnail, where not null. */
  function Places(photos: seq<Photo>): (r: seq<Place>) {
    if photos == [] then [] else PhotoPlaces(photos[0]) + Places(photos[1..])
  }

  predicate Queued(queue: seq<Row>, place: Place) {
    exists i :: 0 <= i < |queue| && queue[i].place == place
  }

  function NewRow(event: string, place: Place, now: int): Row {
    Row(event, place, Pending, 0, MAX_ATTEMPTS, now, None, now)
  }

  /** `insert .. on conflict (bucket, storage_key) do nothing`. */
  function Enqueue(queue: seq<Row>, event: string, places: seq<Place>, now: int): (r: seq<Row>)
    ensures queue <= r
    ensures forall i :: |queue| <= i < |r| ==> r[i] == NewRow(event, r[i].place, now) && r[i].place in places
    ensures forall p :: p in places ==> Queued(r, p)
    decreases |places|
  {
    if places == [] then queue
    else
      var init, last := places[..|places| - 1], places[|places| - 1];
      var q := Enqueue(queue, event, init, now);
      if Queued(q, last) then q
      else
        var r := q + [NewRow(event, last, now)];
        assert forall p :: p in init ==> Queued(r, p) by {
          forall p | p in init ensures Queued(r, p) {
            var i :| 0 <= i < |q| && q[i].place == p;
            assert r[i].place == p;
          }
        }
        assert r[|q|].place == last;
        r
  }

  /** One event: enqueue its objects, record the proof, delete it. */
  function Retire(db: Db, event: string, now: int): (r: Db)
    requires event in db.events
  {
    var ev := db.events[event];
    var queue := Enqueue(db.queue, event, Places(ev.photos), now);
    Db(db.events - {event}, queue,
       db.audit + [Audit(event, |ev.photos|, ev.faces, |queue| - |db.queue|)])
  }

  ghost predicate DistinctIn(ids: seq<string>, events: map<string, Event>) {
    && (forall k :: 0 <= k < |ids| ==> ids[k] in events)
    && (forall k, l :: 0 <= k < l < |ids| ==> ids[k] != ids[l])
  }

  function RetireAll(db: Db, ids: seq<string>, now: int): (r: Db)
    requires DistinctIn(ids, db.events)
    ensures r.events.Keys == db.events.Keys - (set k | 0 <= k < |ids| :: ids[k])
    ensures forall e :: e in r.events ==> r.events[e] == db.events[e]
    decreases |ids|
  {
    if ids == [] then db
    else
      var init, last := ids[..|ids| - 1], ids[|ids| - 1];
      var before := RetireAll(db, init, now);
      assert (set k | 0 <= k < |ids| :: ids[k]) == (set k | 0 <= k < |init| :: init[k]) + {last} by {
        assert forall k :: 0 <= k < |init| ==> init[k] == ids[k];
        assert ids[|ids| - 1] == last;
      }
      Retire(before, last, now)
  }

  /** `where delete_after <= now() order by delete_after limit n`. */
  ghost predicate IsDue(events: map<string, Event>, now: int, limit: nat, ids: seq<string>) {
    && DistinctIn(ids, events)
    && (forall k :: 0 <= k < |ids| ==> events[ids[k]].deleteAfter <= now)
    && (forall k, l :: 0 <= k < l < |ids| ==> events[ids[k]].deleteAfter <= events[ids[l]].deleteAfter)
    && (forall e, k :: e in events && e !in ids && events[e].deleteAfter <= now && 0 <= k < |ids| ==>
          events[ids[k]].deleteAfter <= events[e].deleteAfter)
    && |ids| <= limit
    && (|ids| < limit ==> forall e :: e in events && events[e].deleteAfter <= now ==> e in ids)
  }

  // -------------------------------------------------------------------------
  // What retention leaves behind, in terms of the events it found
  // -------------------------------------------------------------------------

  /** The object is one the photo records. */
  ghost predicate Records(p: Photo, place: Place) {
    place.bucket == p.bucket && (place.key == p.key || p.preview == Some(place.key) || p.thumb == Some(place.key))
  }

  ghost predicate RecordedIn(photos: seq<Photo>, place: Place) {
    exists i :: 0 <= i < |photos| && Records(photos[i], place)
  }

  /** The rows from `from` on that name an event. */
  ghost function RowsFor(queue: seq<Row>, from: nat, event: string): (r: set<nat>) {
    set i: nat | from <= i < |queue| && queue[i].event == event
  }

  /** The proof of deletion: the photos and faces the event had, and the rows queued for it. */
  ghost predicate ProvenBy(events: map<string, Event>, queue: seq<Row>, from: nat, row: Audit) {
    && row.event in events
    && row.photosDeleted == |events[row.event].photos| && row.facesDeleted == events[row.event].faces
    && row.storageEnqueued == |RowsFor(queue, from, row.event)|
  }

  /** A queued row: of a deleted event's recorded object, due at once, with all its attempts before it, and of no
      object queued before. */
  ghost predicate QueuedRow(events: map<string, Event>, ids: seq<string>, queue: seq<Row>, i: nat, now: int)
    requires i < |queue|
  {
    var row := queue[i];
    && row.event in ids && row.event in events && RecordedIn(events[row.event].photos, row.place)
    && row == Row(row.event, row.place, Pending, 0, 8, now, None, now)
    && forall k :: 0 <= k < i ==> queue[k].place != row.place
  }

  /** The queue after the events `ids` are gone: what it was, then rows of their objects, and none forgotten. */
  ghost predicate QueueGrown(events: map<string, Event>, ids: seq<string>, before: seq<Row>, after: seq<Row>, now: int) {
    && before <= after
    && (forall i: nat :: |before| <= i < |after| ==> QueuedRow(events, ids, after, i, now))
    && (forall k, place :: 0 <= k < |ids| && ids[k] in events && RecordedIn(events[ids[k]].photos, place) ==> Queued(after, place))
  }

  lemma {:induction false} PlacesAre(photos: seq<Photo>, place: Place)
    ensures place in Places(photos) <==> RecordedIn(photos, place)
    decreases |photos|
  {
    if photos != [] {
      PlacesAre(photos[1..], place);
      assert place in PhotoPlaces(photos[0]) <==> Records(photos[0], place);
      if RecordedIn(photos[1..], place) {
        var i :| 0 <= i < |photos| - 1 && Records(photos[1..][i], place);
        assert Records(photos[i + 1], place);
      }
      if RecordedIn(photos, place) && !Records(photos[0], place) {
        var i :| 0 <= i < |photos| && Records(photos[i], place);
        assert photos[1..][i - 1] == photos[i];
      }
    }
  }

  /** No row from `from` on is of an object queued before it. */
  ghost predicate NewPlaces(queue: seq<Row>, from: nat) {
    forall i: nat, k: nat :: from <= i < |queue| && k < i ==> queue[k].place != queue[i].place
  }

  lemma {:induction false} EnqueueDistinct(queue: seq<Row>, event: string, places: seq<Place>, now: int)
    ensures NewPlaces(Enqueue(queue, event, places, now), |queue|)
    decreases |places|
  {
    if places != [] {
      EnqueueDistinct(queue, event, places[..|places| - 1], now);
    }
  }

  function EnqueuedSum(audit: seq<Audit>): (r: nat) {
    if audit == [] then 0 else EnqueuedSum(audit[..|audit| - 1]) + audit[|audit| - 1].storageEnqueued
  }

  lemma RowsForSame(a: seq<Row>, b: seq<Row>, from: nat, event: string)
    requires a <= b && forall i :: |a| <= i < |b| ==> b[i].event != event
    ensures RowsFor(b, from, event) == RowsFor(a, from, event)
  {
  }

  lemma RowsForNone(queue: seq<Row>, from: nat, ids: seq<string>, event: string)
    requires event !in ids && forall i :: from <= i < |queue| ==> queue[i].event in ids
    ensures RowsFor(queue, from, event) == {}
  {
  }

  lemma {:induction false} RowsForAll(queue: seq<Row>, from: nat, event: string)
    requires from <= |queue| && forall i :: from <= i < |queue| ==> queue[i].event == event
    ensures |RowsFor(queue, from, event)| == |queue| - from
    decreases |queue|
  {
    if from < |queue| {
      var init := queue[..|queue| - 1];
      RowsForAll(init, from, event);
      assert RowsFor(queue, from, event) == RowsFor(init, from, event) + {|queue| - 1};
    } else {
      assert RowsFor(queue, from, event) == {};
    }
  }

  /** The part of `queue` from `from` on is the part from `mid` on when nothing between names the event. */
  lemma RowsForTail(queue: seq<Row>, from: nat, mid: nat, event: string)
    requires from <= mid <= |queue| && forall i :: from <= i < mid ==> queue[i].event != event
    ensures RowsFor(queue, from, event) == RowsFor(queue, mid, event)
  {
  }

  lemma RetireProves(db: Db, event: string, now: int, from: nat)
    requires event in db.events && from <= |db.queue| && forall i :: from <= i < |db.queue| ==> db.queue[i].event != event
    ensures var r := Retire(db, event, now);
            && |r.audit| == |db.audit| + 1 && r.audit[..|db.audit|] == db.audit
            && r.audit[|db.audit|].event == event && ProvenBy(db.events, r.queue, from, r.audit[|db.audit|])
  {
    var r := Retire(db, event, now);
    RowsForTail(r.queue, from, |db.queue|, event);
    RowsForAll(r.queue, |db.queue|, event);
  }

  lemma RetireQueues(db: Db, event: string, now: int)
    requires event in db.events
    ensures QueueGrown(db.events, [event], db.queue, Retire(db, event, now).queue, now)
  {
    var photos := db.events[event].photos;
    var r := Retire(db, event, now).queue;
    EnqueueDistinct(db.queue, event, Places(photos), now);
    forall place ensures place in Places(photos) <==> RecordedIn(photos, place) {
      PlacesAre(photos, place);
    }
    forall i: nat | |db.queue| <= i < |r| ensures QueuedRow(db.events, [event], r, i, now) {
      assert r[i].event in [event];
      assert r[i].place in Places(photos);
      assert forall k :: 0 <= k < i ==> r[k].place != r[i].place;
    }
  }

  lemma QueueGrownNext(events: map<string, Event>, rest: map<string, Event>, ids: seq<string>, last: string,
                       a: seq<Row>, b: seq<Row>, c: seq<Row>, now: int)
    requires QueueGrown(events, ids, a, b, now) && QueueGrown(rest, [last], b, c, now)
    requires last in events && last in rest && rest[last] == events[last]
    ensures QueueGrown(events, ids + [last], a, c, now)
  {
    forall i: nat | |a| <= i < |c| ensures QueuedRow(events, ids + [last], c, i, now) {
      if i < |b| {
        assert QueuedRow(events, ids, b, i, now) && c[i] == b[i];
        assert forall k :: 0 <= k < i ==> c[k] == b[k];
      } else {
        assert QueuedRow(rest, [last], c, i, now);
      }
    }
    forall k, place | 0 <= k < |ids + [last]| && (ids + [last])[k] in events && RecordedIn(events[(ids + [last])[k]].photos, place)
      ensures Queued(c, place)
    {
      if k < |ids| {
        assert (ids + [last])[k] == ids[k];
        assert Queued(b, place);
        var i :| 0 <= i < |b| && b[i].place == place;
        assert c[i].place == place;
      } else {
        assert [last][0] == last;
      }
    }
  }

  lemma {:induction false} RetireAllQueues(db: Db, ids: seq<string>, now: int)
    requires DistinctIn(ids, db.events)
    ensures QueueGrown(db.events, ids, db.queue, RetireAll(db, ids, now).queue, now)
    decreases |ids|
  {
    if ids != [] {
      var init, last := ids[..|ids| - 1], ids[|ids| - 1];
      var before := RetireAll(db, init, now);
      RetireAllQueues(db, init, now);
      RetireQueues(before, last, now);
      QueueGrownNext(db.events, before.events, init, last, db.queue, before.queue, Retire(before, last, now).queue, now);
      assert init + [last] == ids;
    }
  }

  /** One proof for each retired event, in order, true of the events as they were. */
  ghost predicate AllProven(events: map<string, Event>, queue: seq<Row>, from: nat, ids: seq<string>, rows: seq<Audit>) {
    |rows| == |ids| && forall k :: 0 <= k < |rows| ==> rows[k].event == ids[k] && ProvenBy(events, queue, from, rows[k])
  }

  lemma ProvenLater(events: map<string, Event>, a: seq<Row>, b: seq<Row>, from: nat, row: Audit, last: string)
    requires ProvenBy(events, a, from, row) && row.event != last
    requires a <= b && forall i :: |a| <= i < |b| ==> b[i].event == last
    ensures ProvenBy(events, b, from, row)
  {
    RowsForSame(a, b, from, row.event);
  }

  lemma AllProvenNext(events: map<string, Event>, a: seq<Row>, b: seq<Row>, from: nat, ids: seq<string>, rows: seq<Audit>, row: Audit)
    requires AllProven(events, a, from, ids, rows) && row.event !in ids && ProvenBy(events, b, from, row)
    requires a <= b && forall i :: |a| <= i < |b| ==> b[i].event == row.event
    ensures AllProven(events, b, from, ids + [row.event], rows + [row])
  {
    forall k | 0 <= k < |rows| ensures ProvenBy(events, b, from, rows[k]) {
      ProvenLater(events, a, b, from, rows[k], row.event);
    }
  }

  /** What the audit has gained tells the events `ids`. */
  ghost predicate Told(db: Db, ids: seq<string>, after: Db) {
    db.audit <= after.audit && AllProven(db.events, after.queue, |db.queue|, ids, after.audit[|db.audit|..])
  }

  lemma ToldNext(db: Db, ids: seq<string>, before: Db, last: string, now: int)
    requires Told(db, ids, before) && QueueGrown(db.events, ids, db.queue, before.queue, now)
    requires last !in ids && last in before.events && last in db.events && before.events[last] == db.events[last]
    ensures Told(db, ids + [last], Retire(before, last, now))
  {
    var after := Retire(before, last, now);
    forall i: nat | |db.queue| <= i < |before.queue| ensures before.queue[i].event in ids {
      assert QueuedRow(db.events, ids, before.queue, i, now);
    }
    RetireProves(before, last, now, |db.queue|);
    var row := after.audit[|before.audit|];
    AllProvenNext(db.events, before.queue, after.queue, |db.queue|, ids, before.audit[|db.audit|..], row);
    assert after.audit[|db.audit|..] == before.audit[|db.audit|..] + [row];
  }

  /** Each proof counts the photos and faces the event had and the rows queued for it. */
  lemma {:induction false} RetireAllProves(db: Db, ids: seq<string>, now: int)
    requires DistinctIn(ids, db.events)
    ensures Told(db, ids, RetireAll(db, ids, now))
    decreases |ids|
  {
    if ids != [] {
      var init, last := ids[..|ids| - 1], ids[|ids| - 1];
      RetireAllProves(db, init, now);
      RetireAllQueues(db, init, now);
      ToldNext(db, init, RetireAll(db, init, now), last, now);
      assert init + [last] == ids;
    }
  }

  // -------------------------------------------------------------------------
  // The queue
  // -------------------------------------------------------------------------

  predicate Claimable(r: Row, now: int) {
    r.state.Pending? && r.runAfter <= now && (r.lockedUntil.None? || r.lockedUntil.value < now)
  }

  function ClaimRow(r: Row, now: int, lease: nat): Row {
    r.(attempts := r.attempts + 1, lockedUntil := Some(now + lease))
  }

  function ClaimRows(queue: seq<Row>, batch: seq<nat>, now: int, lease: nat): (r: seq<Row>)
    ensures |r| == |queue|
    ensures forall i {:trigger r[i]} :: 0 <= i < |r| ==> r[i] == if i in batch then ClaimRow(queue[i], now, lease) else queue[i]
  {
    seq(|queue|, i requires 0 <= i < |queue| => if i in batch then ClaimRow(queue[i], now, lease) else queue[i])
  }

  function Backoff(attempts: nat): (r: nat)
    ensures r <= BACKOFF_CAP && r <= Pow2(attempts)
  {
    if Pow2(attempts) <= BACKOFF_CAP then Pow2(attempts) else BACKOFF_CAP
  }

  function FinishRow(r: Row, ok: bool, now: int): Row {
    if ok then r.(state := Done, lockedUntil := None)
    else if r.attempts >= r.maxAttempts then r.(state := Failed, lockedUntil := None)
    else r.(state := Pending, lockedUntil := None,
            runAfter := now + Backoff(r.attempts))
  }

  /** `order by created_at, id`. */
  function Keys(queue: seq<Row>): (r: seq<int>)
    ensures |r| == |queue| && forall i :: 0 <= i < |r| ==> r[i] == queue[i].createdAt
  {
    seq(|queue|, i requires 0 <= i < |queue| => queue[i].createdAt)
  }

  function Candidates(queue: seq<Row>, now: int, skipped: set<nat>): (r: set<nat>)
    ensures RowsOf(Keys(queue), r)
  {
    set i: nat | 0 <= i < |queue| && Claimable(queue[i], now) && i !in skipped
  }

  function CountState(queue: seq<Row>, state: RowState): (r: nat)
    ensures r <= |queue|
  {
    if queue == [] then 0
    else CountState(queue[..|queue| - 1], state) + if queue[|queue| - 1].state == state then 1 else 0
  }

  /** The backlog view's counts; the two numbers that mean bytes may still be there. */
  predicate Drained(queue: seq<Row>) {
    CountState(queue, Pending) == 0 && CountState(queue, Failed) == 0
  }

  lemma {:induction false} CountUpdate(queue: seq<Row>, i: nat, r: Row, state: RowState)
    requires i < |queue|
    ensures CountState(queue[i := r], state) ==
      CountState(queue, state) + (if r.state == state then 1 else 0) - (if queue[i].state == state then 1 else 0)
    decreases |queue|
  {
    var init := queue[..|queue| - 1];
    if i < |init| {
      CountUpdate(init, i, r, state);
      assert queue[i := r][..|queue| - 1] == init[i := r];
    } else {
      assert queue[i := r][..|queue| - 1] == init;
    }
  }

  lemma {:induction false} CountZero(queue: seq<Row>, state: RowState)
    ensures CountState(queue, state) == 0 <==> forall i :: 0 <= i < |queue| ==> queue[i].state != state
    decreases |queue|
  {
    if queue != [] {
      var init := queue[..|queue| - 1];
      CountZero(init, state);
      assert forall i :: 0 <= i < |init| ==> queue[i] == init[i];
      assert queue[|queue| - 1].state == state || forall i :: 0 <= i < |queue| && queue[i].state == state ==> i < |init|;
    }
  }

  lemma {:induction false} CountSame(a: seq<Row>, b: seq<Row>, state: RowState)
    requires |a| == |b| && forall i :: 0 <= i < |a| ==> a[i].state == b[i].state
    ensures CountState(a, state) == CountState(b, state)
    decreases |a|
  {
    if a != [] {
      CountSame(a[..|a| - 1], b[..|b| - 1], state);
    }
  }
}
