/** The retention function and the storage worker, on tables updated in place. */
module StorageGcWorker {
  import opened Wrappers
  import opened Claims
  import opened StorageGc
  import opened StorageGcRounds

  /** The driver a worker was configured with: one bucket, addressed by key alone. */
  class Bucket {
    const name: string
    var objects: set<string>

    constructor (name: string)
      ensures this.name == name && objects == {}
    {
      this.name := name;
      objects := {};
    }

    /** Returns whether the delete succeeded and whether the object was there. */
    method Delete(key: string, fault: Fault) returns (ok: bool, existed: bool)
      modifies this
      ensures ok == fault.Works? && existed == (key in old(objects))
      ensures objects == if fault.Works? || (fault.Breaks? && fault.gone) then old(objects) - {key} else old(objects)
    {
      ok, existed := fault.Works?, key in objects;
      if fault.Works? || (fault.Breaks? && fault.gone) {
        objects := objects - {key};
      }
    }
  }

  function Ids(rows: seq<Audit>): (r: seq<string>)
    ensures |r| == |rows| && forall k :: 0 <= k < |rows| ==> r[k] == rows[k].event
  {
    seq(|rows|, k requires 0 <= k < |rows| => rows[k].event)
  }

  lemma RetireSnoc(db: Db, ids: seq<string>, k: nat, now: int)
    requires DistinctIn(ids, db.events) && k < |ids|
    ensures DistinctIn(ids[..k], db.events) && DistinctIn(ids[..k + 1], db.events)
    ensures ids[k] in RetireAll(db, ids[..k], now).events
    ensures RetireAll(db, ids[..k + 1], now) == Retire(RetireAll(db, ids[..k], now), ids[k], now)
  {
    assert ids[..k + 1][..k] == ids[..k];
    assert forall l :: 0 <= l < k ==> ids[..k][l] != ids[k];
  }

  /** One audit row for each of `ids`, and the queue longer by what they say. */
  ghost predicate Audited(before: Db, after: Db, ids: seq<string>, rows: seq<Audit>) {
    && Ids(rows) == ids && after.audit == before.audit + rows
    && |after.queue| == |before.queue| + EnqueuedSum(rows)
  }

  lemma AuditedNext(before: Db, after: Db, next: Db, ids: seq<string>, k: nat, rows: seq<Audit>, row: Audit)
    requires k < |ids| && Audited(before, after, ids[..k], rows) && row.event == ids[k]
    requires next.audit == after.audit + [row] && |next.queue| == |after.queue| + row.storageEnqueued
    ensures Audited(before, next, ids[..k + 1], rows + [row])
  {
    EnqueuedSnoc(rows, row);
    assert ids[..k + 1] == ids[..k] + [ids[k]];
    assert Ids(rows + [row]) == Ids(rows) + [row.event];
  }

  lemma EnqueuedSnoc(rows: seq<Audit>, row: Audit)
    ensures EnqueuedSum(rows + [row]) == EnqueuedSum(rows) + row.storageEnqueued
  {
    assert (rows + [row])[..|rows|] == rows;
  }

  function Members(ids: seq<string>): (r: set<string>) {
    set k | 0 <= k < |ids| :: ids[k]
  }

  /** The whole of retention, in terms of the events it found. */
  lemma RetentionRows(db: Db, ids: seq<string>, now: int)
    requires DistinctIn(ids, db.events)
    ensures var after := RetireAll(db, ids, now);
            && QueueGrown(db.events, ids, db.queue, after.queue, now)
            && after.events == db.events - Members(ids)
            && forall rows :: after.audit == db.audit + rows ==> AllProven(db.events, after.queue, |db.queue|, ids, rows)
  {
    RetireAllProves(db, ids, now);
    RetireAllQueues(db, ids, now);
    var after := RetireAll(db, ids, now);
    forall rows | after.audit == db.audit + rows ensures rows == after.audit[|db.audit|..] {
    }
  }

  class Store {
    var events: map<string, Event>
    var queue: seq<Row>
    var audit: seq<Audit>

    ghost function Tables(): (r: Db)
      reads this
    {
      Db(events, queue, audit)
    }

    // -----------------------------------------------------------------------
    // run_retention
    // -----------------------------------------------------------------------

    method Earliest(candidates: set<string>) returns (e: string)
      requires candidates != {} && candidates <= events.Keys
      ensures e in candidates && forall f :: f in candidates ==> events[e].deleteAfter <= events[f].deleteAfter
    {
      e :| e in candidates;
      var rest := candidates - {e};
      while rest != {}
        invariant e in candidates && rest <= candidates
        invariant forall f :: f in candidates && f !in rest ==> events[e].deleteAfter <= events[f].deleteAfter
        decreases rest
      {
        var f :| f in rest;
        if events[f].deleteAfter < events[e].deleteAfter {
          e := f;
        }
        rest := rest - {f};
      }
    }

    method DueEvents(now: int, limit: nat) returns (ids: seq<string>)
      ensures IsDue(events, now, limit, ids)
    {
      ids := [];
      var rest := set e | e in events && events[e].deleteAfter <= now;
      while rest != {} && |ids| < limit
        invariant DistinctIn(ids, events) && |ids| <= limit
        invariant forall k :: 0 <= k < |ids| ==> events[ids[k]].deleteAfter <= now
        invariant forall k, l :: 0 <= k < l < |ids| ==> events[ids[k]].deleteAfter <= events[ids[l]].deleteAfter
        invariant rest == set e | e in events && events[e].deleteAfter <= now && e !in ids
        invariant forall e, k :: e in rest && 0 <= k < |ids| ==> events[ids[k]].deleteAfter <= events[e].deleteAfter
        decreases rest
      {
        var e := Earliest(rest);
        ids := ids + [e];
        rest := rest - {e};
      }
      forall e | |ids| < limit && e in events && events[e].deleteAfter <= now ensures e in ids {
        assert e !in rest;
      }
    }

    method InsertRows(event: string, places: seq<Place>, now: int) returns (count: nat)
      modifies this`queue
      ensures queue == Enqueue(old(queue), event, places, now)
      ensures count == |queue| - |old(queue)|
    {
      count := 0;
      for k := 0 to |places|
        invariant queue == Enqueue(old(queue), event, places[..k], now)
        invariant count == |queue| - |old(queue)|
      {
        assert places[..k + 1][..k] == places[..k];
        if !Queued(queue, places[k]) {
          queue := queue + [NewRow(event, places[k], now)];
          count := count + 1;
        }
      }
      assert places[..|places|] == places;
    }

    /** The loop body: count, enqueue, audit, delete. */
    method RetireOne(e: string, now: int) returns (row: Audit)
      requires e in events
      modifies this
      ensures Tables() == Retire(old(Tables()), e, now)
      ensures row.event == e && audit == old(audit) + [row]
      ensures |queue| == |old(queue)| + row.storageEnqueued
      ensures ProvenBy(old(events), queue, |old(queue)|, row) && QueueGrown(old(events), [e], old(queue), queue, now)
    {
      RetireProves(Tables(), e, now, |queue|);
      RetireQueues(Tables(), e, now);
      var photos, faces := |events[e].photos|, events[e].faces;
      var enqueued := InsertRows(e, Places(events[e].photos), now);
      row := Audit(e, photos, faces, enqueued);
      audit := audit + [row];
      events := events - {e};
    }

    method RetireEach(ids: seq<string>, now: int) returns (rows: seq<Audit>)
      requires DistinctIn(ids, events)
      modifies this
      ensures Ids(rows) == ids && Tables() == RetireAll(old(Tables()), ids, now)
      ensures audit == old(audit) + rows
      ensures |queue| == |old(queue)| + EnqueuedSum(rows)
      ensures AllProven(old(events), queue, |old(queue)|, ids, rows) && QueueGrown(old(events), ids, old(queue), queue, now)
      ensures events == old(events) - Members(ids)
    {
      RetentionRows(Tables(), ids, now);
      rows := [];
      for k := 0 to |ids|
        invariant DistinctIn(ids[..k], old(events))
        invariant Tables() == RetireAll(old(Tables()), ids[..k], now)
        invariant Audited(old(Tables()), Tables(), ids[..k], rows)
      {
        RetireSnoc(old(Tables()), ids, k, now);
        ghost var before := Tables();
        var row := RetireOne(ids[k], now);
        AuditedNext(old(Tables()), before, Tables(), ids, k, rows, row);
        rows := rows + [row];
      }
      assert ids[..|ids|] == ids;
    }

    /** One row per deleted event comes back. */
    method RunRetention(now: int, limit: nat) returns (rows: seq<Audit>)
      modifies this
      ensures IsDue(old(events), now, limit, Ids(rows))
      ensures Tables() == RetireAll(old(Tables()), Ids(rows), now)
      ensures audit == old(audit) + rows
      ensures |queue| == |old(queue)| + EnqueuedSum(rows)
      // each row counts the photos and faces its event had, and the queue rows that now name it
      ensures AllProven(old(events), queue, |old(queue)|, Ids(rows), rows)
      // what is queued is what those events' photos recorded, each object once
      ensures QueueGrown(old(events), Ids(rows), old(queue), queue, now)
      ensures events == old(events) - Members(Ids(rows))
    {
      var ids := DueEvents(now, limit);
      rows := RetireEach(ids, now);
    }

    // -----------------------------------------------------------------------
    // claim_storage_gc and finish_storage_gc
    // -----------------------------------------------------------------------

    method Claim(limit: nat, now: int, lease: nat, skipped: set<nat>) returns (batch: seq<nat>)
      modifies this`queue
      ensures IsBatch(Keys(old(queue)), Candidates(old(queue), now, skipped), limit, batch)
      ensures queue == ClaimRows(old(queue), batch, now, lease)
      // pending, due, no lease in force, not locked by another: of those, all that the limit leaves room for
      ensures forall i: nat :: i in batch ==>
        && i < |old(queue)| && i !in skipped && old(queue)[i].state.Pending? && old(queue)[i].runAfter <= now
        && (old(queue)[i].lockedUntil.None? || old(queue)[i].lockedUntil.value < now)
        && queue[i] == old(queue)[i].(attempts := old(queue)[i].attempts + 1, lockedUntil := Some(now + lease))
      ensures forall i: nat :: (
        |batch| < limit && i < |old(queue)| && i !in skipped && old(queue)[i].state.Pending? && old(queue)[i].runAfter <= now
        && (old(queue)[i].lockedUntil.None? || old(queue)[i].lockedUntil.value < now)) ==> i in batch
    {
      batch := FirstBatch(Keys(queue), Candidates(queue, now, skipped), limit);
      queue := ClaimRows(queue, batch, now, lease);
    }

    /** finish_storage_gc.  None is the exception for an unknown id, which changes nothing. */
    method Finish(id: nat, ok: bool, now: int) returns (state: Option<RowState>)
      modifies this`queue
      ensures id >= |old(queue)| ==> state == None && queue == old(queue)
      ensures id < |old(queue)| ==> queue == old(queue)[id := FinishRow(old(queue)[id], ok, now)] && state == Some(queue[id].state)
      // done, failed once the attempts are spent, or due again after the power of two of them, an hour at most
      ensures id < |old(queue)| ==>
        var was := old(queue)[id];
        queue[id] == if ok then was.(state := Done, lockedUntil := None)
          else if was.attempts >= was.maxAttempts then was.(state := Failed, lockedUntil := None)
          else was.(state := Pending, lockedUntil := None, runAfter := now + if Pow2(was.attempts) <= 3600 then Pow2(was.attempts) else 3600)
    {
      if id >= |queue| {
        return None;
      }
      var r := queue[id];
      if ok {
        queue := queue[id := r.(state := Done, lockedUntil := None)];
        return Some(Done);
      }
      if r.attempts >= r.maxAttempts {
        queue := queue[id := r.(state := Failed, lockedUntil := None)];
        return Some(Failed);
      }
      queue := queue[id := r.(state := Pending, lockedUntil := None, runAfter := now + Backoff(r.attempts))];
      return Some(Pending);
    }

    // -----------------------------------------------------------------------
    // drain_once
    // -----------------------------------------------------------------------

    /** One claimed row: delete, then report. */
    method DrainRow(bucket: Bucket, id: nat, fault: Fault, at: int) returns (deleted: nat, failed: nat)
      requires id < |queue|
      modifies this`queue, bucket
      ensures |queue| == |old(queue)|
      ensures queue == old(queue)[id := Reported(old(queue)[id], fault, at)]
      ensures deleted == (if queue[id].state == Done then 1 else 0) && failed == (if queue[id].state == Failed then 1 else 0)
      ensures bucket.objects <= old(bucket.objects) && old(bucket.objects) - {queue[id].place.key} <= bucket.objects
      ensures queue[id].state == Done ==> queue[id].place.key !in bucket.objects
    {
      deleted, failed := 0, 0;
      var ok, existed := bucket.Delete(queue[id].place.key, fault);
      if fault.Refuses? {
        var s := Finish(id, false, at);
        queue := queue[id := queue[id].(state := Failed)];
        failed := 1;
      } else if !ok {
        var s := Finish(id, false, at);
        if s == Some(Failed) {
          failed := 1;
        }
      } else {
        var s := Finish(id, true, at);
        deleted := 1;
      }
    }

    /** The loop over the claimed rows. */
    method DrainBatch(bucket: Bucket, rows: seq<nat>, faults: nat -> Fault, at: nat -> int)
        returns (deleted: nat, failed: nat)
      requires forall k :: 0 <= k < |rows| ==> rows[k] < |queue| && queue[rows[k]].state.Pending?
      requires forall k, l :: 0 <= k < l < |rows| ==> rows[k] != rows[l]
      modifies this`queue, bucket
      ensures queue == DrainRows(old(queue), rows, faults, at)
      ensures Tally(old(queue), queue, deleted, failed)
      ensures bucket.objects <= old(bucket.objects)
      ensures old(bucket.objects) - bucket.objects <= KeysAt(old(queue), rows)
      ensures forall k :: 0 <= k < |rows| && queue[rows[k]].state == Done ==> queue[rows[k]].place.key !in bucket.objects
    {
      deleted, failed := 0, 0;
      for k := 0 to |rows|
        invariant Tally(old(queue), queue, deleted, failed)
        invariant DrainedTo(old(queue), queue, old(bucket.objects), bucket.objects, rows, k, faults, at)
      {
        var id := rows[k];
        ghost var q, b := queue, bucket.objects;
        Untouched(old(queue), rows, k, faults, at);
        var d, f := DrainRow(bucket, id, faults(id), at(id));
        TallyStep(old(queue), q, id, queue[id], deleted, failed, d, f);
        DrainedNext(old(queue), q, old(bucket.objects), b, rows, k, faults, at, bucket.objects);
        deleted, failed := deleted + d, failed + f;
      }
      assert rows[..|rows|] == rows;
    }

    /** One batch. */
    method DrainOnce(bucket: Bucket, limit: nat, now: int, lease: nat, skipped: set<nat>,
                     faults: nat -> Fault, at: nat -> int)
        returns (deleted: nat, failed: nat, ghost batch: seq<nat>)
      modifies this`queue, bucket
      ensures IsBatch(Keys(old(queue)), Candidates(old(queue), now, skipped), limit, batch)
      ensures queue == DrainRows(ClaimRows(old(queue), batch, now, lease), batch, faults, at)
      // counts: every row deleted or dead-lettered leaves the pending ones
      ensures Tally(old(queue), queue, deleted, failed)
      // it is idle exactly when every claimed row's delete breaks with attempts to spare
      ensures deleted == 0 && failed == 0 <==> Stalls(old(queue), batch, faults)
      // the bucket loses nothing but claimed keys, and all of those that were reported deleted
      ensures bucket.objects <= old(bucket.objects)
      ensures old(bucket.objects) - bucket.objects <= KeysAt(old(queue), batch)
      ensures forall k :: 0 <= k < |batch| && queue[batch[k]].state == Done ==> queue[batch[k]].place.key !in bucket.objects
    {
      batch := [];
      var rows := Claim(limit, now, lease, skipped);
      batch := rows;
      ClaimedPending(old(queue), now, skipped, limit, rows);
      ClaimKeepsCounts(old(queue), rows, now, lease);
      RoundStallsIff(old(queue), rows, now, lease, faults, at);
      deleted, failed := DrainBatch(bucket, rows, faults, at);
    }

    method OneRound(bucket: Bucket, env: Env, r: nat, ghost trace: Trace)
        returns (deleted: nat, failed: nat, ghost next: Trace)
      requires trace.queue == queue && r == Rounds(trace) && Ran(trace, env, false)
      modifies this`queue, bucket
      ensures Tally(old(queue), queue, deleted, failed)
      ensures bucket.objects <= old(bucket.objects)
      ensures next.queue == queue && First(next) == First(trace) && Rounds(next) == Rounds(trace) + 1
      ensures Ran(next, env, deleted == 0 && failed == 0)
    {
      ghost var batch;
      deleted, failed, batch := DrainOnce(bucket, env.limit, env.clock(r), env.lease, {}, env.faults(r), env.at(r));
      OneMoreRound(trace, env, batch, queue, deleted == 0 && failed == 0);
      next := Then(trace, batch, queue);
    }

    /** Batches until one deletes nothing and dead-letters nothing, or a signal. */
    method RunRounds(bucket: Bucket, env: Env, stop: nat -> bool)
        returns (rounds: nat, deleted: nat, failed: nat, ghost trace: Trace, ghost idle: bool)
      modifies this`queue, bucket
      // every batch that continues lowers the pending count, so at most one more batch than that
      ensures rounds <= CountState(old(queue), Pending) + 1
      ensures Tally(old(queue), queue, deleted, failed)
      ensures bucket.objects <= old(bucket.objects)
      ensures First(trace) == old(queue) && trace.queue == queue && Rounds(trace) == rounds
      ensures (idle || stop(rounds)) && Ran(trace, env, idle)
    {
      deleted, failed, rounds, trace, idle := 0, 0, 0, Start(queue), false;
      var more := true;
      while more && !stop(rounds)
        invariant more == !idle
        invariant rounds <= deleted + failed + if idle then 1 else 0
        invariant Tally(old(queue), queue, deleted, failed)
        invariant bucket.objects <= old(bucket.objects)
        invariant First(trace) == old(queue) && trace.queue == queue && Rounds(trace) == rounds && Ran(trace, env, idle)
        decreases more, CountState(queue, Pending)
      {
        var d, f;
        d, f, trace := OneRound(bucket, env, rounds, trace);
        deleted, failed, rounds := deleted + d, failed + f, rounds + 1;
        if d == 0 && f == 0 {
          more, idle := false, true;
        }
      }
    }

    /** The worker without `--forever`.  Nobody else writes the queue meanwhile.  Returns the exit code. */
    method RunWorker(bucket: Bucket, env: Env, stop: nat -> bool)
        returns (code: int, rounds: nat, deleted: nat, failed: nat, ghost trace: Trace, ghost idle: bool)
      modifies this`queue, bucket
      ensures rounds <= CountState(old(queue), Pending) + 1
      ensures Tally(old(queue), queue, deleted, failed)
      ensures code == if CountState(queue, Failed) > 0 then 1 else 0
      ensures bucket.objects <= old(bucket.objects)
      ensures First(trace) == old(queue) && trace.queue == queue && Rounds(trace) == rounds
      ensures (idle || stop(rounds)) && Ran(trace, env, idle)
      // with no signal: if rows are due at first and the worker does not wait, it drains the queue exactly
      // when no pending row's delete breaks with attempts to spare; if it waits out every backoff, exactly
      // when no non-empty batch is all such rows
      ensures idle && env.limit >= 1 ==>
        (forall f: nat -> Fault :: DrainsUnlessSpared(old(queue), queue, env, f)) && DrainsUnlessStalled(trace, env)
      ensures Healthy(old(queue), env, stop) ==> CountState(queue, Pending) == 0 && failed == 0
    {
      rounds, deleted, failed, trace, idle := RunRounds(bucket, env, stop);
      if idle && env.limit >= 1 {
        BriskOutcome(trace, env);
        PacedOutcome(trace, env);
      }
      if Healthy(old(queue), env, stop) {
        HealthyDrains(trace, env, stop);
      }
      var dead := DeadLettered();
      code := if dead > 0 then 1 else 0;
    }

    method DeadLettered() returns (n: nat)
      ensures n == CountState(queue, Failed)
    {
      n := 0;
      for k := 0 to |queue|
        invariant n == CountState(queue[..k], Failed)
      {
        assert queue[..k + 1][..k] == queue[..k];
        if queue[k].state == Failed {
          n := n + 1;
        }
      }
      assert queue[..|queue|] == queue;
    }
  }
}
