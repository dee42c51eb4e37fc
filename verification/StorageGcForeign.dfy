/** A run that ends with an empty backlog and an erased event's object still in its bucket. */
module StorageGcForeign {
  import opened Wrappers
  import opened StorageKeys
  import opened StorageGc
  import opened StorageGcRuns

  /** One event, with one photo recorded at `p` and its bytes there. */
  ghost predicate Uploaded(x: World, e: string, p: Place) {
    && x.db == Db(map[e := Event(x.now, [Photo(p.bucket, p.key, None, None)], 0)], [], [])
    && p in x.objects && x.retired == {} && |x.workers| > 0 && x.workers[0] == Resting && p.bucket != x.home
  }

  /** The event is gone and its photo's place is queued. */
  ghost predicate Buried(x: World, e: string, p: Place) {
    && x.db.queue == [NewRow(e, p, x.now)]
    && p in x.objects && x.retired == {p} && |x.workers| > 0 && x.workers[0] == Resting && p.bucket != x.home
  }

  /** A worker has claimed the row. */
  ghost predicate Held(x: World, p: Place) {
    && |x.db.queue| == 1 && x.db.queue[0].place == p && x.db.queue[0].state.Pending?
    && p in x.objects && x.retired == {p} && |x.workers| > 0 && x.workers[0] == Draining([0], 0, Fetching) && p.bucket != x.home
  }

  lemma Upload(x: World, e: string, p: Place, hash: string, extension: string)
    requires Initial(x) && |x.workers| > 0 && Plain(e) && Plain(hash) && Plain(extension) && p.bucket != x.home
    requires p.key == OriginalKey(e, hash, extension)
    ensures Uploaded(Next(Next(Next(x, Create(e, x.now)), Record(e, p.bucket, hash, extension)), Put(p)), e, p)
  {
    var a := Next(x, Create(e, x.now));
    var b := Next(a, Record(e, p.bucket, hash, extension));
    assert a.db.events == map[e := Event(x.now, [], 0)];
    assert [] + [Photo(p.bucket, p.key, None, None)] == [Photo(p.bucket, p.key, None, None)];
    assert b.db.events == map[e := Event(x.now, [Photo(p.bucket, p.key, None, None)], 0)];
  }

  lemma OnePlace(p: Place)
    ensures Places([Photo(p.bucket, p.key, None, None)]) == [p]
  {
    var photos := [Photo(p.bucket, p.key, None, None)];
    assert photos[1..] == [];
    assert PhotoPlaces(photos[0]) == [p];
  }

  lemma EnqueueOne(e: string, p: Place, now: int)
    ensures Enqueue([], e, [p], now) == [NewRow(e, p, now)]
  {
    assert [p][..0] == [] && Enqueue([], e, [], now) == [];
  }

  lemma RetireOnly(db: Db, e: string, now: int)
    requires e in db.events
    ensures DistinctIn([e], db.events) && RetireAll(db, [e], now) == Retire(db, e, now)
  {
    assert [e][..0] == [];
    assert RetireAll(db, [], now) == db;
  }

  lemma Retention(x: World, e: string, p: Place)
    requires Uploaded(x, e, p)
    ensures Buried(Next(x, Retain([e])), e, p)
  {
    RetireOnly(x.db, e, x.now);
    OnePlace(p);
    EnqueueOne(e, p, x.now);
    assert [e][..0] == [] && RecordedBy(x.db.events, []) == {};
    assert RecordedBy(x.db.events, [e]) == Recorded(x.db.events[e]) == {p};
    assert IsDue(x.db.events, x.now, 1, [e]);
  }

  lemma Claim(x: World, e: string, p: Place)
    requires Buried(x, e, p)
    ensures Held(Next(x, Take(0, [0])), p)
  {
    var rows: seq<nat> := [0];
    assert 0 in rows && Enabled(x, Take(0, rows));
  }

  lemma DeleteAndReport(x: World, p: Place)
    requires Held(x, p)
    ensures var y := Next(Next(x, Delete(0)), ReportDone(0));
            Drained(y.db.queue) && p in y.retired && p in y.objects
  {
    DoneButPresentIffForeign(x, 0);
    var y := Next(Next(x, Delete(0)), ReportDone(0));
    CountZero(y.db.queue, RowState.Pending);
    CountZero(y.db.queue, RowState.Failed);
  }

  lemma RunSnoc(x: World, steps: seq<Step>, s: Step)
    ensures Run(x, steps + [s]) == Next(Run(x, steps), s)
  {
    assert (steps + [s])[..|steps|] == steps;
  }

  /** For any event, photo and bucket other than the workers': recorded, retained, claimed, deleted and
      reported, it leaves an empty backlog and the object where it was. */
  lemma EmptyBacklogObjectPresent(x: World, e: string, p: Place, hash: string, extension: string) returns (steps: seq<Step>)
    requires Initial(x) && |x.workers| > 0 && Plain(e) && Plain(hash) && Plain(extension) && p.bucket != x.home
    requires p.key == OriginalKey(e, hash, extension)
    ensures var y := Run(x, steps); Drained(y.db.queue) && p in y.retired && p in y.objects
  {
    steps := [];
    Upload(x, e, p, hash, extension);
    RunSnoc(x, steps, Create(e, x.now));
    steps := steps + [Create(e, x.now)];
    RunSnoc(x, steps, Record(e, p.bucket, hash, extension));
    steps := steps + [Record(e, p.bucket, hash, extension)];
    RunSnoc(x, steps, Put(p));
    steps := steps + [Put(p)];
    Retention(Run(x, steps), e, p);
    RunSnoc(x, steps, Retain([e]));
    steps := steps + [Retain([e])];
    Claim(Run(x, steps), e, p);
    RunSnoc(x, steps, Take(0, [0]));
    steps := steps + [Take(0, [0])];
    DeleteAndReport(Run(x, steps), p);
    RunSnoc(x, steps, Delete(0));
    steps := steps + [Delete(0)];
    RunSnoc(x, steps, ReportDone(0));
    steps := steps + [ReportDone(0)];
  }
}
