/** Rounds of the deletion worker on plain values: what a batch does to the queue, when the loop stops,
    and when it stops with the queue drained. */
module StorageGcRounds {
  import opened Claims
  import opened StorageGc

  /** What the object store answers: it works, it raises (perhaps after removing the object), or
      it refuses the key as unsafe. */
  datatype Fault = Works | Breaks(gone: bool) | Refuses

  /** What a run of the worker meets: its settings, the clock at each round, and for each round and row
      what the store answers and when it is reported. */
  datatype Env = Env(limit: nat, lease: nat, clock: nat -> int, faults: nat -> nat -> Fault, at: nat -> nat -> int)

  // -------------------------------------------------------------------------
  // One batch
  // -------------------------------------------------------------------------

  /** What reporting does to one claimed row. */
  function Reported(r: Row, fault: Fault, at: int): Row {
    if fault.Refuses? then FinishRow(r, false, at).(state := Failed) else FinishRow(r, fault.Works?, at)
  }

  function DrainRows(queue: seq<Row>, rows: seq<nat>, faults: nat -> Fault, at: nat -> int): (r: seq<Row>)
    requires forall k :: 0 <= k < |rows| ==> rows[k] < |queue|
    ensures |r| == |queue|
    ensures forall i :: 0 <= i < |r| ==> r[i].place == queue[i].place
  {
    if rows == [] then queue
    else
      var before, id := DrainRows(queue, rows[..|rows| - 1], faults, at), rows[|rows| - 1];
      before[id := Reported(before[id], faults(id), at(id))]
  }

  function KeysAt(queue: seq<Row>, rows: seq<nat>): (r: set<string>)
    requires forall k :: 0 <= k < |rows| ==> rows[k] < |queue|
  {
    set k | 0 <= k < |rows| :: queue[rows[k]].place.key
  }

  lemma KeysAtSnoc(queue: seq<Row>, rows: seq<nat>, k: nat)
    requires k < |rows| && forall l :: 0 <= l < |rows| ==> rows[l] < |queue|
    ensures KeysAt(queue, rows[..k + 1]) == KeysAt(queue, rows[..k]) + {queue[rows[k]].place.key}
  {
    var a, b := rows[..k], rows[..k + 1];
    assert forall l :: 0 <= l < k ==> a[l] == b[l];
    assert b[k] == rows[k];
  }

  /** Claimed rows are pending and claimed once. */
  lemma ClaimedPending(queue: seq<Row>, now: int, skipped: set<nat>, limit: nat, batch: seq<nat>)
    requires IsBatch(Keys(queue), Candidates(queue, now, skipped), limit, batch)
    ensures forall k :: 0 <= k < |batch| ==> batch[k] < |queue| && queue[batch[k]].state.Pending?
    ensures forall k, l :: 0 <= k < l < |batch| ==> batch[k] != batch[l]
  {
    BatchDistinct(Keys(queue), Candidates(queue, now, skipped), limit, batch);
  }

  lemma DrainNext(queue: seq<Row>, rows: seq<nat>, k: nat, faults: nat -> Fault, at: nat -> int)
    requires 0 < k <= |rows| && forall l :: 0 <= l < |rows| ==> rows[l] < |queue|
    ensures var before, id := DrainRows(queue, rows[..k - 1], faults, at), rows[k - 1];
            DrainRows(queue, rows[..k], faults, at) == before[id := Reported(before[id], faults(id), at(id))]
  {
    assert rows[..k][..k - 1] == rows[..k - 1];
  }

  /** Rows outside the batch stay as they were. */
  lemma {:induction false} Outside(queue: seq<Row>, rows: seq<nat>, k: nat, faults: nat -> Fault, at: nat -> int, i: nat)
    requires k <= |rows| && forall l :: 0 <= l < |rows| ==> rows[l] < |queue|
    requires i < |queue| && forall l :: 0 <= l < k ==> rows[l] != i
    ensures DrainRows(queue, rows[..k], faults, at)[i] == queue[i]
    decreases k
  {
    if k > 0 {
      Outside(queue, rows, k - 1, faults, at, i);
      DrainNext(queue, rows, k, faults, at);
    }
  }

  lemma {:induction false} Inside(queue: seq<Row>, rows: seq<nat>, k: nat, faults: nat -> Fault, at: nat -> int, l: nat)
    requires l < k <= |rows| && forall l :: 0 <= l < |rows| ==> rows[l] < |queue|
    requires forall a, b :: 0 <= a < b < |rows| ==> rows[a] != rows[b]
    ensures DrainRows(queue, rows[..k], faults, at)[rows[l]] == Reported(queue[rows[l]], faults(rows[l]), at(rows[l]))
    decreases k
  {
    DrainNext(queue, rows, k, faults, at);
    if l < k - 1 {
      Inside(queue, rows, k - 1, faults, at, l);
    } else {
      Outside(queue, rows, k - 1, faults, at, rows[l]);
    }
  }

  /** A row not reported yet is as it was claimed; a reported one stays as reported. */
  lemma Untouched(queue: seq<Row>, rows: seq<nat>, k: nat, faults: nat -> Fault, at: nat -> int)
    requires k <= |rows| && forall l :: 0 <= l < |rows| ==> rows[l] < |queue|
    requires forall a, b :: 0 <= a < b < |rows| ==> rows[a] != rows[b]
    ensures var r := DrainRows(queue, rows[..k], faults, at);
            && (forall i :: 0 <= i < |queue| && i !in rows[..k] ==> r[i] == queue[i])
            && (forall l :: 0 <= l < k ==> r[rows[l]] == Reported(queue[rows[l]], faults(rows[l]), at(rows[l])))
            && (forall l :: k <= l < |rows| ==> r[rows[l]] == queue[rows[l]])
  {
    var r := DrainRows(queue, rows[..k], faults, at);
    forall i: nat | i < |queue| && i !in rows[..k] ensures r[i] == queue[i] {
      assert forall l :: 0 <= l < k ==> rows[..k][l] == rows[l];
      Outside(queue, rows, k, faults, at, i);
    }
    forall l: nat | l < k ensures r[rows[l]] == Reported(queue[rows[l]], faults(rows[l]), at(rows[l])) {
      Inside(queue, rows, k, faults, at, l);
    }
    forall l: nat | k <= l < |rows| ensures r[rows[l]] == queue[rows[l]] {
      Outside(queue, rows, k, faults, at, rows[l]);
    }
  }

  /** Counters against the queue they started from. */
  ghost predicate Tally(q0: seq<Row>, q: seq<Row>, deleted: nat, failed: nat) {
    && CountState(q, Pending) + deleted + failed == CountState(q0, Pending)
    && CountState(q, Done) == CountState(q0, Done) + deleted
    && CountState(q, Failed) == CountState(q0, Failed) + failed
  }

  lemma TallyStep(q0: seq<Row>, q: seq<Row>, id: nat, r: Row, deleted: nat, failed: nat, d: nat, f: nat)
    requires id < |q| && Tally(q0, q, deleted, failed) && q[id].state.Pending?
    requires d == (if r.state.Done? then 1 else 0) && f == (if r.state.Failed? then 1 else 0)
    ensures Tally(q0, q[id := r], deleted + d, failed + f)
  {
    CountUpdate(q, id, r, Pending);
    CountUpdate(q, id, r, Done);
    CountUpdate(q, id, r, Failed);
  }

  /** The first `k` claimed rows reported, and what that did to the bucket. */
  ghost predicate DrainedTo(q0: seq<Row>, q: seq<Row>, b0: set<string>, b: set<string>, rows: seq<nat>, k: nat,
                            faults: nat -> Fault, at: nat -> int)
  {
    && k <= |rows| && (forall l :: 0 <= l < |rows| ==> rows[l] < |q0|)
    && q == DrainRows(q0, rows[..k], faults, at)
    && b <= b0 && b0 - b <= KeysAt(q0, rows[..k])
    && forall l :: 0 <= l < k && q[rows[l]].state == Done ==> q[rows[l]].place.key !in b
  }

  lemma DrainedNext(q0: seq<Row>, q: seq<Row>, b0: set<string>, b: set<string>, rows: seq<nat>, k: nat,
                    faults: nat -> Fault, at: nat -> int, b1: set<string>)
    requires k < |rows| && (forall i, j :: 0 <= i < j < |rows| ==> rows[i] != rows[j])
    requires DrainedTo(q0, q, b0, b, rows, k, faults, at)
    requires var r := Reported(q[rows[k]], faults(rows[k]), at(rows[k]));
             b1 <= b && b - {r.place.key} <= b1 && (r.state == Done ==> r.place.key !in b1)
    ensures DrainedTo(q0, q[rows[k] := Reported(q[rows[k]], faults(rows[k]), at(rows[k]))], b0, b1, rows, k + 1, faults, at)
  {
    assert rows[..k + 1][..k] == rows[..k];
    KeysAtSnoc(q0, rows, k);
  }

  // -------------------------------------------------------------------------
  // When a batch changes no count
  // -------------------------------------------------------------------------

  /** The delete breaks and the row has attempts to spare: it stays pending. */
  predicate Spared(r: Row, fault: Fault) {
    fault.Breaks? && r.attempts + 1 < r.maxAttempts
  }

  ghost predicate Stalls(queue: seq<Row>, batch: seq<nat>, faults: nat -> Fault) {
    forall k :: 0 <= k < |batch| ==> batch[k] < |queue| && Spared(queue[batch[k]], faults(batch[k]))
  }

  /** A claimed row is as it was reported, any other as it was. */
  lemma RowReported(queue: seq<Row>, batch: seq<nat>, now: int, lease: nat, faults: nat -> Fault, at: nat -> int, i: nat)
    requires forall k :: 0 <= k < |batch| ==> batch[k] < |queue|
    requires forall k, l :: 0 <= k < l < |batch| ==> batch[k] != batch[l]
    requires i < |queue|
    ensures DrainRows(ClaimRows(queue, batch, now, lease), batch, faults, at)[i]
         == if i in batch then Reported(ClaimRow(queue[i], now, lease), faults(i), at(i)) else queue[i]
  {
    var claimed := ClaimRows(queue, batch, now, lease);
    Untouched(claimed, batch, |batch|, faults, at);
    assert batch[..|batch|] == batch;
    if i in batch {
      var k :| 0 <= k < |batch| && batch[k] == i;
    }
  }

  lemma ReportedPendingIff(r: Row, fault: Fault, now: int, lease: nat, at: int)
    requires r.state.Pending?
    ensures Reported(ClaimRow(r, now, lease), fault, at).state.Pending? <==> Spared(r, fault)
  {
  }

  lemma RowStays(queue: seq<Row>, batch: seq<nat>, now: int, lease: nat, faults: nat -> Fault, at: nat -> int, i: nat)
    requires forall k :: 0 <= k < |batch| ==> batch[k] < |queue| && queue[batch[k]].state.Pending?
    requires forall k, l :: 0 <= k < l < |batch| ==> batch[k] != batch[l]
    requires i < |queue|
    ensures DrainRows(ClaimRows(queue, batch, now, lease), batch, faults, at)[i].state == Pending
       <==> queue[i].state == Pending && (i in batch ==> Spared(queue[i], faults(i)))
  {
    RowReported(queue, batch, now, lease, faults, at, i);
    if i in batch {
      ReportedPendingIff(queue[i], faults(i), now, lease, at(i));
    }
  }

  lemma SamePendingIff(a: seq<Row>, b: seq<Row>)
    requires |a| == |b| && forall i :: 0 <= i < |a| && a[i].state == Pending ==> b[i].state == Pending
    ensures CountState(a, Pending) == CountState(b, Pending)
       <==> forall i :: 0 <= i < |b| && b[i].state == Pending ==> a[i].state == Pending
  {
    if i :| 0 <= i < |b| && b[i].state == Pending && a[i].state != Pending {
      FewerPending(a, b, i);
    } else {
      NoMorePending(a, b);
      NoMorePending(b, a);
    }
  }

  /** A batch leaves the pending count as it was exactly when every claimed row is spared. */
  lemma RoundStallsIff(queue: seq<Row>, batch: seq<nat>, now: int, lease: nat, faults: nat -> Fault, at: nat -> int)
    requires forall k :: 0 <= k < |batch| ==> batch[k] < |queue| && queue[batch[k]].state.Pending?
    requires forall k, l :: 0 <= k < l < |batch| ==> batch[k] != batch[l]
    ensures CountState(DrainRows(ClaimRows(queue, batch, now, lease), batch, faults, at), Pending) == CountState(queue, Pending)
       <==> Stalls(queue, batch, faults)
  {
    var r := DrainRows(ClaimRows(queue, batch, now, lease), batch, faults, at);
    forall i: nat | i < |queue|
      ensures r[i].state == Pending <==> queue[i].state == Pending && (i in batch ==> Spared(queue[i], faults(i)))
    {
      RowStays(queue, batch, now, lease, faults, at, i);
    }
    SamePendingIff(r, queue);
    StallsByRow(queue, batch, faults);
  }

  lemma StallsByRow(queue: seq<Row>, batch: seq<nat>, faults: nat -> Fault)
    requires forall k :: 0 <= k < |batch| ==> batch[k] < |queue| && queue[batch[k]].state.Pending?
    ensures Stalls(queue, batch, faults)
       <==> forall i :: 0 <= i < |queue| && queue[i].state == Pending && i in batch ==> Spared(queue[i], faults(i))
  {
    if Stalls(queue, batch, faults) {
      forall i | 0 <= i < |queue| && i in batch ensures Spared(queue[i], faults(i)) {
        var k :| 0 <= k < |batch| && batch[k] == i;
      }
    }
  }

  // -------------------------------------------------------------------------
  // Rounds in a row
  // -------------------------------------------------------------------------

  /** A queue, or what a round that claimed `batch` left of the one before. */
  datatype Trace = Start(queue: seq<Row>) | Then(before: Trace, batch: seq<nat>, queue: seq<Row>)

  function First(t: Trace): (queue: seq<Row>) {
    match t
    case Start(queue) => queue
    case Then(before, _, _) => First(before)
  }

  function Rounds(t: Trace): (n: nat) {
    match t
    case Start(_) => 0
    case Then(before, _, _) => Rounds(before) + 1
  }

  ghost predicate Takes(queue: seq<Row>, batch: seq<nat>, r: nat, env: Env) {
    IsBatch(Keys(queue), Candidates(queue, env.clock(r), {}), env.limit, batch)
  }

  function RowsAfter(queue: seq<Row>, batch: seq<nat>, r: nat, env: Env): (after: seq<Row>)
    requires forall k :: 0 <= k < |batch| ==> batch[k] < |queue|
  {
    DrainRows(ClaimRows(queue, batch, env.clock(r), env.lease), batch, env.faults(r), env.at(r))
  }

  /** Round `r` claims `batch` from the queue and leaves it as `after`. */
  ghost predicate Follows(queue: seq<Row>, batch: seq<nat>, r: nat, env: Env, after: seq<Row>) {
    exists b :: b == batch && Takes(queue, b, r, env) && RowsAfter(queue, b, r, env) == after
  }

  /** The loop of the worker: no round stalls but the last, and it is idle exactly when that one does. */
  ghost predicate Ran(t: Trace, env: Env, idle: bool) {
    match t
    case Start(_) => !idle
    case Then(before, batch, queue) =>
      && Ran(before, env, false)
      && Follows(before.queue, batch, Rounds(before), env, queue)
      && (idle <==> Stalls(before.queue, batch, env.faults(Rounds(before))))
  }

  lemma OneMoreRound(t: Trace, env: Env, batch: seq<nat>, after: seq<Row>, idle: bool)
    requires Ran(t, env, false) && Takes(t.queue, batch, Rounds(t), env)
    requires after == RowsAfter(t.queue, batch, Rounds(t), env) && (idle <==> Stalls(t.queue, batch, env.faults(Rounds(t))))
    ensures Ran(Then(t, batch, after), env, idle)
  {
  }

  /** Every pending row is due and unlocked. */
  ghost predicate AllDue(queue: seq<Row>, now: int) {
    forall i :: 0 <= i < |queue| && queue[i].state.Pending? ==> Claimable(queue[i], now)
  }

  /** The loop that stopped by itself left the queue drained exactly when its last batch found nothing
      to claim and no pending row was still waiting for its time or its lease. */
  lemma DrainedIff(t: Trace, env: Env)
    requires Ran(t, env, true) && env.limit >= 1
    ensures CountState(t.queue, Pending) == 0
       <==> t.batch == [] && AllDue(t.before.queue, env.clock(Rounds(t.before)))
  {
    StallKeepsPending(t.before.queue, t.batch, Rounds(t.before), env, t.queue);
    NothingPendingIff(t.before.queue, t.batch, Rounds(t.before), env);
  }

  lemma StallKeepsPending(queue: seq<Row>, batch: seq<nat>, r: nat, env: Env, after: seq<Row>)
    requires Follows(queue, batch, r, env, after) && Stalls(queue, batch, env.faults(r))
    ensures CountState(after, Pending) == CountState(queue, Pending)
  {
    ClaimedPending(queue, env.clock(r), {}, env.limit, batch);
    RoundStallsIff(queue, batch, env.clock(r), env.lease, env.faults(r), env.at(r));
  }

  lemma NothingPendingIff(queue: seq<Row>, batch: seq<nat>, r: nat, env: Env)
    requires Takes(queue, batch, r, env) && env.limit >= 1
    ensures CountState(queue, Pending) == 0 <==> batch == [] && AllDue(queue, env.clock(r))
  {
    CountZero(queue, Pending);
    if batch != [] {
      ClaimedPending(queue, env.clock(r), {}, env.limit, batch);
      assert queue[batch[0]].state == Pending;
    } else if AllDue(queue, env.clock(r)) {
      forall i | 0 <= i < |queue| ensures queue[i].state != Pending {
        assert i !in Candidates(queue, env.clock(r), {});
      }
    }
  }

  /** Every non-empty batch deleted or dead-lettered something. */
  ghost predicate NoBatchStalls(t: Trace, env: Env) {
    match t
    case Start(_) => true
    case Then(before, batch, _) =>
      NoBatchStalls(before, env) && (batch != [] ==> !Stalls(before.queue, batch, env.faults(Rounds(before))))
  }

  lemma {:induction false} BusyRounds(t: Trace, env: Env)
    requires Ran(t, env, false)
    ensures NoBatchStalls(t, env)
  {
    if t.Then? {
      BusyRounds(t.before, env);
    }
  }

  /** With pending rows due when the worker last looks, it drains the queue exactly when no non-empty batch
      is all broken deletes with attempts to spare. */
  lemma DueDrainedIff(t: Trace, env: Env)
    requires Ran(t, env, true) && env.limit >= 1 && AllDue(t.before.queue, env.clock(Rounds(t.before)))
    ensures CountState(t.queue, Pending) == 0 <==> NoBatchStalls(t, env)
  {
    DrainedIff(t, env);
    BusyRounds(t.before, env);
  }

  /** The worker never looks again before the longest backoff of the last round is over. */
  ghost predicate Paced(env: Env) {
    forall r: nat :: Waits(env, r)
  }

  ghost predicate Waits(env: Env, r: nat) {
    env.clock(r) <= env.clock(r + 1) && forall i: nat :: env.at(r)(i) + BACKOFF_CAP <= env.clock(r + 1)
  }

  lemma RoundKeepsDue(queue: seq<Row>, batch: seq<nat>, r: nat, env: Env, after: seq<Row>)
    requires Follows(queue, batch, r, env, after) && AllDue(queue, env.clock(r)) && Paced(env)
    ensures AllDue(after, env.clock(r + 1))
  {
    ClaimedPending(queue, env.clock(r), {}, env.limit, batch);
    assert Waits(env, r);
    forall i: nat | i < |after| && after[i].state.Pending? ensures Claimable(after[i], env.clock(r + 1)) {
      assert env.at(r)(i) + BACKOFF_CAP <= env.clock(r + 1);
      RowStaysDue(queue, batch, env.clock(r), env.lease, env.faults(r), env.at(r), i, env.clock(r + 1));
    }
  }

  lemma RowStaysDue(queue: seq<Row>, batch: seq<nat>, now: int, lease: nat, faults: nat -> Fault, at: nat -> int, i: nat, later: int)
    requires forall k :: 0 <= k < |batch| ==> batch[k] < |queue| && queue[batch[k]].state.Pending?
    requires forall k, l :: 0 <= k < l < |batch| ==> batch[k] != batch[l]
    requires i < |queue| && AllDue(queue, now) && now <= later && at(i) + BACKOFF_CAP <= later
    ensures var r := DrainRows(ClaimRows(queue, batch, now, lease), batch, faults, at)[i];
            r.state.Pending? ==> Claimable(r, later)
  {
    RowReported(queue, batch, now, lease, faults, at, i);
    if i in batch {
      ReportedDue(queue[i], faults(i), at(i), now, lease, later);
    }
  }

  lemma ReportedDue(r: Row, fault: Fault, at: int, now: int, lease: nat, later: int)
    requires at + BACKOFF_CAP <= later
    ensures var s := Reported(ClaimRow(r, now, lease), fault, at); s.state.Pending? ==> Claimable(s, later)
  {
  }

  lemma LastRound(t: Trace, env: Env, idle: bool) returns (queue: seq<Row>, r: nat)
    requires Ran(t, env, idle) && t.Then?
    ensures queue == t.before.queue && r == Rounds(t.before) && Rounds(t) == r + 1
    ensures Follows(queue, t.batch, r, env, t.queue) && Ran(t.before, env, false)
  {
    queue, r := t.before.queue, Rounds(t.before);
  }

  lemma {:induction false} PacedIsDue(t: Trace, env: Env, idle: bool)
    requires Ran(t, env, idle) && Paced(env) && AllDue(First(t), env.clock(0))
    ensures AllDue(t.queue, env.clock(Rounds(t)))
  {
    if t.Then? {
      var queue, r := LastRound(t, env, idle);
      PacedIsDue(t.before, env, false);
      RoundKeepsDue(queue, t.batch, r, env, t.queue);
    }
  }

  /** The same from the start: rows due at first, and a worker that waits out every backoff. */
  lemma PacedDrainedIff(t: Trace, env: Env)
    requires Ran(t, env, true) && env.limit >= 1 && Paced(env) && AllDue(First(t), env.clock(0))
    ensures CountState(t.queue, Pending) == 0 <==> NoBatchStalls(t, env)
  {
    PacedIsDue(t.before, env, false);
    DueDrainedIff(t, env);
  }

  // -------------------------------------------------------------------------
  // A worker that does not wait
  // -------------------------------------------------------------------------

  /** Within `n` rounds: the clock never goes back before the first look, a row's delete answers the same
      every time, and no look comes as late as the shortest backoff after a report.  The loop does not sleep
      between batches. */
  ghost predicate Brisk(env: Env, f: nat -> Fault, n: nat) {
    forall r: nat :: r < n ==> BriskRound(env, f, n, r)
  }

  ghost predicate BriskRound(env: Env, f: nat -> Fault, n: nat, r: nat) {
    && env.clock(0) <= env.clock(r)
    && (forall i: nat :: env.faults(r)(i) == f(i))
    && forall q: nat, i: nat :: q < n ==> env.clock(q) < env.at(r)(i) + MIN_BACKOFF
  }

  /** Out of reach of every look. */
  ghost predicate Postponed(r: Row, env: Env, n: nat) {
    r.state.Pending? && forall q: nat :: q < n ==> env.clock(q) < r.runAfter
  }

  /** A row that is spared stays pending: it is as it was, or put off beyond the run. */
  ghost predicate Stays(first: Row, now: Row, env: Env, n: nat) {
    now == first || Postponed(now, env, n)
  }

  lemma SparedReport(row: Row, fault: Fault, env: Env, n: nat, now: int, at: int)
    requires row.state.Pending? && Spared(row, fault) && forall q: nat :: q < n ==> env.clock(q) < at + MIN_BACKOFF
    ensures Postponed(Reported(ClaimRow(row, now, env.lease), fault, at), env, n)
  {
    assert Pow2(row.attempts + 1) == 2 * Pow2(row.attempts) >= 2;
  }

  lemma RoundRow(queue: seq<Row>, batch: seq<nat>, r: nat, env: Env, after: seq<Row>, i: nat)
    requires Follows(queue, batch, r, env, after) && i < |queue|
    ensures |after| == |queue|
    ensures after[i] == if i in batch then Reported(ClaimRow(queue[i], env.clock(r), env.lease), env.faults(r)(i), env.at(r)(i)) else queue[i]
    ensures i in batch ==> Claimable(queue[i], env.clock(r))
  {
    ClaimedPending(queue, env.clock(r), {}, env.limit, batch);
    RowReported(queue, batch, env.clock(r), env.lease, env.faults(r), env.at(r), i);
  }

  lemma RoundKeepsSpared(queue: seq<Row>, batch: seq<nat>, r: nat, env: Env, f: nat -> Fault, n: nat, after: seq<Row>, first: Row, i: nat)
    requires Follows(queue, batch, r, env, after) && Brisk(env, f, n) && r < n && i < |queue|
    requires first.state.Pending? && Spared(first, f(i)) && Stays(first, queue[i], env, n)
    ensures |after| == |queue| && Stays(first, after[i], env, n)
  {
    assert BriskRound(env, f, n, r);
    RoundRow(queue, batch, r, env, after, i);
    if i in batch {
      SparedReport(first, f(i), env, n, env.clock(r), env.at(r)(i));
    }
  }

  lemma {:induction false} SparedStays(t: Trace, env: Env, idle: bool, f: nat -> Fault, n: nat, i: nat)
    requires Ran(t, env, idle) && Brisk(env, f, n) && Rounds(t) <= n && i < |First(t)|
    requires First(t)[i].state.Pending? && Spared(First(t)[i], f(i))
    ensures i < |t.queue| && Stays(First(t)[i], t.queue[i], env, n)
  {
    if t.Then? {
      SparedStays(t.before, env, false, f, n, i);
      RoundKeepsSpared(t.before.queue, t.batch, Rounds(t.before), env, f, n, t.queue, First(t)[i], i);
    }
  }

  /** A row that is not spared is as it was, or pending no more. */
  ghost predicate Leaves(first: Row, now: Row) {
    now == first || !now.state.Pending?
  }

  lemma RoundRidsUnspared(queue: seq<Row>, batch: seq<nat>, r: nat, env: Env, f: nat -> Fault, n: nat, after: seq<Row>, first: Row, i: nat)
    requires Follows(queue, batch, r, env, after) && Brisk(env, f, n) && r < n && i < |queue|
    requires (first.state.Pending? ==> !Spared(first, f(i))) && Leaves(first, queue[i])
    ensures |after| == |queue| && Leaves(first, after[i])
  {
    assert BriskRound(env, f, n, r);
    RoundRow(queue, batch, r, env, after, i);
    if i in batch {
      ReportedPendingIff(first, f(i), env.clock(r), env.lease, env.at(r)(i));
    }
  }

  lemma {:induction false} UnsparedLeaves(t: Trace, env: Env, idle: bool, f: nat -> Fault, n: nat, i: nat)
    requires Ran(t, env, idle) && Brisk(env, f, n) && Rounds(t) <= n && i < |First(t)|
    requires First(t)[i].state.Pending? ==> !Spared(First(t)[i], f(i))
    ensures |t.queue| == |First(t)| && Leaves(First(t)[i], t.queue[i])
  {
    if t.Then? {
      UnsparedLeaves(t.before, env, false, f, n, i);
      RoundRidsUnspared(t.before.queue, t.batch, Rounds(t.before), env, f, n, t.queue, First(t)[i], i);
    }
  }

  lemma {:induction false} SameLength(t: Trace, env: Env, idle: bool)
    requires Ran(t, env, idle)
    ensures |t.queue| == |First(t)|
  {
    if t.Then? {
      SameLength(t.before, env, false);
      ClaimedPending(t.before.queue, env.clock(Rounds(t.before)), {}, env.limit, t.batch);
    }
  }

  /** No pending row is spared. */
  ghost predicate NoneSpared(queue: seq<Row>, f: nat -> Fault) {
    forall i :: 0 <= i < |queue| && queue[i].state.Pending? ==> !Spared(queue[i], f(i))
  }

  /** Among rows none of which is spared a batch stalls exactly when it is empty. */
  lemma UnsparedStallIff(queue: seq<Row>, first: seq<Row>, batch: seq<nat>, r: nat, env: Env, f: nat -> Fault, n: nat)
    requires Takes(queue, batch, r, env) && Brisk(env, f, n) && r < n
    requires |queue| == |first| && (forall i :: 0 <= i < |queue| ==> Leaves(first[i], queue[i])) && NoneSpared(first, f)
    ensures Stalls(queue, batch, env.faults(r)) <==> batch == []
  {
    assert BriskRound(env, f, n, r);
    ClaimedPending(queue, env.clock(r), {}, env.limit, batch);
    forall k | 0 <= k < |batch| ensures !Spared(queue[batch[k]], env.faults(r)(batch[k])) {
      assert Leaves(first[batch[k]], queue[batch[k]]);
    }
    StallIsEmptyIff(queue, batch, env.faults(r));
  }

  /** And then nothing was pending. */
  lemma EmptyAtLast(queue: seq<Row>, first: seq<Row>, batch: seq<nat>, r: nat, env: Env, f: nat -> Fault, n: nat)
    requires Takes(queue, batch, r, env) && Stalls(queue, batch, env.faults(r)) && Brisk(env, f, n) && r < n && env.limit >= 1
    requires |queue| == |first| && forall i :: 0 <= i < |queue| ==> Leaves(first[i], queue[i])
    requires NoneSpared(first, f) && AllDue(first, env.clock(0))
    ensures CountState(queue, Pending) == 0
  {
    assert BriskRound(env, f, n, r);
    UnsparedStallIff(queue, first, batch, r, env, f, n);
    NothingPendingIff(queue, batch, r, env);
    forall i | 0 <= i < |queue| && queue[i].state.Pending? ensures Claimable(queue[i], env.clock(r)) {
      assert Leaves(first[i], queue[i]) && Claimable(first[i], env.clock(0));
    }
  }

  lemma StallIsEmptyIff(queue: seq<Row>, batch: seq<nat>, faults: nat -> Fault)
    requires forall k :: 0 <= k < |batch| ==> batch[k] < |queue| && !Spared(queue[batch[k]], faults(batch[k]))
    ensures Stalls(queue, batch, faults) <==> batch == []
  {
    if batch != [] {
      assert !Spared(queue[batch[0]], faults(batch[0]));
    }
  }

  lemma DrainsUnspared(t: Trace, env: Env, f: nat -> Fault, n: nat)
    requires Ran(t, env, true) && env.limit >= 1 && Brisk(env, f, n) && Rounds(t) <= n
    requires AllDue(First(t), env.clock(0)) && NoneSpared(First(t), f)
    ensures CountState(t.queue, Pending) == 0
  {
    var before := t.before;
    SameLength(before, env, false);
    forall i: nat | i < |before.queue| ensures Leaves(First(t)[i], before.queue[i]) {
      UnsparedLeaves(before, env, false, f, n, i);
    }
    EmptyAtLast(before.queue, First(t), t.batch, Rounds(before), env, f, n);
    StallKeepsPending(before.queue, t.batch, Rounds(before), env, t.queue);
  }

  /** Rows due at first, and a worker that does not wait: it drains the queue exactly when no pending row's
      delete breaks while the row has attempts to spare. */
  lemma BriskDrainedIff(t: Trace, env: Env, f: nat -> Fault, n: nat)
    requires Ran(t, env, true) && env.limit >= 1 && Brisk(env, f, n) && Rounds(t) <= n && AllDue(First(t), env.clock(0))
    ensures CountState(t.queue, Pending) == 0 <==> NoneSpared(First(t), f)
  {
    if NoneSpared(First(t), f) {
      DrainsUnspared(t, env, f, n);
    } else {
      var i: nat :| i < |First(t)| && First(t)[i].state.Pending? && Spared(First(t)[i], f(i));
      SparedStays(t, env, true, f, n, i);
      CountZero(t.queue, Pending);
    }
  }

  /** The same of a run's two queues, for a worker that is brisk as long as it can last. */
  ghost predicate DrainsUnlessSpared(q0: seq<Row>, q: seq<Row>, env: Env, f: nat -> Fault) {
    AllDue(q0, env.clock(0)) && Brisk(env, f, CountState(q0, Pending) + 1) ==>
      (CountState(q, Pending) == 0 <==> NoneSpared(q0, f))
  }

  lemma BriskOutcome(t: Trace, env: Env)
    requires Ran(t, env, true) && env.limit >= 1 && Rounds(t) <= CountState(First(t), Pending) + 1
    ensures forall f: nat -> Fault :: DrainsUnlessSpared(First(t), t.queue, env, f)
  {
    forall f: nat -> Fault ensures DrainsUnlessSpared(First(t), t.queue, env, f) {
      var n := CountState(First(t), Pending) + 1;
      if AllDue(First(t), env.clock(0)) && Brisk(env, f, n) {
        BriskDrainedIff(t, env, f, n);
      }
    }
  }

  /** And for one that waits out every backoff. */
  ghost predicate DrainsUnlessStalled(t: Trace, env: Env) {
    Paced(env) && AllDue(First(t), env.clock(0)) ==> (CountState(t.queue, Pending) == 0 <==> NoBatchStalls(t, env))
  }

  lemma PacedOutcome(t: Trace, env: Env)
    requires Ran(t, env, true) && env.limit >= 1
    ensures DrainsUnlessStalled(t, env)
  {
    if Paced(env) && AllDue(First(t), env.clock(0)) {
      PacedDrainedIff(t, env);
    }
  }

  /** The rounds are determined by the queue at first and what the worker meets. */
  lemma {:induction false} OneTrace(t: Trace, u: Trace, env: Env, idle: bool, other: bool)
    requires Ran(t, env, idle) && Ran(u, env, other) && First(t) == First(u) && Rounds(t) == Rounds(u)
    ensures t == u
  {
    if t.Then? {
      OneTrace(t.before, u.before, env, false, false);
      var queue := t.before.queue;
      BatchUnique(Keys(queue), Candidates(queue, env.clock(Rounds(t.before)), {}), env.limit, t.batch, u.batch);
    }
  }

  // -------------------------------------------------------------------------
  // A healthy store, and a witness of the other kind
  // -------------------------------------------------------------------------

  /** The store never fails, no signal comes, and every pending row is due and unlocked whenever
      the worker looks. */
  ghost predicate Healthy(queue: seq<Row>, env: Env, stop: nat -> bool) {
    && env.limit >= 1
    && (forall r, i :: env.faults(r)(i).Works?)
    && (forall r :: !stop(r))
    && (forall i, r :: 0 <= i < |queue| && queue[i].state.Pending? ==> Claimable(queue[i], env.clock(r)))
  }

  /** In a healthy batch every claimed row is done and no other row changes. */
  lemma HealthyRows(queue: seq<Row>, batch: seq<nat>, now: int, lease: nat, faults: nat -> Fault, at: nat -> int)
    requires forall i :: faults(i).Works?
    requires forall k :: 0 <= k < |batch| ==> batch[k] < |queue| && queue[batch[k]].state.Pending?
    requires forall k, l :: 0 <= k < l < |batch| ==> batch[k] != batch[l]
    ensures var r := DrainRows(ClaimRows(queue, batch, now, lease), batch, faults, at);
            && (forall i :: 0 <= i < |queue| ==> if i in batch then r[i].state.Done? else r[i] == queue[i])
            && (forall i :: 0 <= i < |queue| ==> (r[i].state.Failed? <==> queue[i].state.Failed?))
  {
    forall i: nat | i < |queue|
      ensures var r := DrainRows(ClaimRows(queue, batch, now, lease), batch, faults, at);
              if i in batch then r[i].state.Done? && queue[i].state.Pending? else r[i] == queue[i]
    {
      RowReported(queue, batch, now, lease, faults, at, i);
    }
  }

  lemma HealthyRound(queue: seq<Row>, batch: seq<nat>, r: nat, env: Env, stop: nat -> bool, after: seq<Row>)
    requires Healthy(queue, env, stop) && Follows(queue, batch, r, env, after)
    ensures Healthy(after, env, stop) && CountState(after, Failed) == CountState(queue, Failed)
  {
    ClaimedPending(queue, env.clock(r), {}, env.limit, batch);
    HealthyRows(queue, batch, env.clock(r), env.lease, env.faults(r), env.at(r));
    FailedSame(after, queue);
  }

  lemma {:induction false} HealthyTrace(t: Trace, env: Env, stop: nat -> bool, idle: bool)
    requires Ran(t, env, idle) && Healthy(First(t), env, stop)
    ensures Healthy(t.queue, env, stop) && CountState(t.queue, Failed) == CountState(First(t), Failed)
  {
    if t.Then? {
      HealthyTrace(t.before, env, stop, false);
      HealthyRound(t.before.queue, t.batch, Rounds(t.before), env, stop, t.queue);
    }
  }

  lemma HealthyStallIsEmpty(queue: seq<Row>, batch: seq<nat>, r: nat, env: Env, stop: nat -> bool)
    requires Healthy(queue, env, stop)
    ensures (Stalls(queue, batch, env.faults(r)) <==> batch == []) && AllDue(queue, env.clock(r))
  {
    if batch != [] {
      assert env.faults(r)(batch[0]).Works?;
    }
  }

  /** A healthy run drains the queue and dead-letters nothing. */
  lemma HealthyDrains(t: Trace, env: Env, stop: nat -> bool)
    requires Ran(t, env, true) && Healthy(First(t), env, stop)
    ensures CountState(t.queue, Pending) == 0 && CountState(t.queue, Failed) == CountState(First(t), Failed)
  {
    HealthyTrace(t, env, stop, true);
    HealthyTrace(t.before, env, stop, false);
    HealthyStallIsEmpty(t.before.queue, t.batch, Rounds(t.before), env, stop);
    DrainedIff(t, env);
  }

  lemma {:induction false} FewerPending(a: seq<Row>, b: seq<Row>, i: nat)
    requires |a| == |b| && i < |a| && a[i].state != Pending && b[i].state == Pending
    requires forall j :: 0 <= j < |a| && a[j].state == Pending ==> b[j].state == Pending
    ensures CountState(a, Pending) < CountState(b, Pending)
    decreases |a|
  {
    var x, y := a[..|a| - 1], b[..|b| - 1];
    if i < |x| {
      FewerPending(x, y, i);
    } else {
      NoMorePending(x, y);
    }
  }

  lemma {:induction false} NoMorePending(a: seq<Row>, b: seq<Row>)
    requires |a| == |b|
    requires forall j :: 0 <= j < |a| && a[j].state == Pending ==> b[j].state == Pending
    ensures CountState(a, Pending) <= CountState(b, Pending)
    decreases |a|
  {
    if a != [] {
      NoMorePending(a[..|a| - 1], b[..|b| - 1]);
    }
  }

  lemma {:induction false} FailedSame(a: seq<Row>, b: seq<Row>)
    requires |a| == |b| && forall i :: 0 <= i < |a| ==> (a[i].state == Failed <==> b[i].state == Failed)
    ensures CountState(a, Failed) == CountState(b, Failed)
    decreases |a|
  {
    if a != [] {
      FailedSame(a[..|a| - 1], b[..|b| - 1]);
    }
  }

  /** "Run until the queue drains" is not what the exit rule does: one row whose delete raises, with
      attempts to spare, ends the loop after one batch with the row still pending and exit code 0. */
  lemma ExitsWithBacklog(row: Row, now: int, lease: nat, gone: bool)
    requires Claimable(row, now) && row.attempts + 1 < row.maxAttempts
    ensures var batch: seq<nat> := [0];
            var r := DrainRows(ClaimRows([row], batch, now, lease), batch, _ => Breaks(gone), _ => now);
            && IsBatch(Keys([row]), Candidates([row], now, {}), 1, batch)
            && Tally([row], r, 0, 0) && CountState(r, Pending) == 1 && CountState(r, Failed) == 0
  {
    var batch: seq<nat> := [0];
    assert 0 in Candidates([row], now, {});
    var claimed := ClaimRows([row], batch, now, lease);
    var r := DrainRows(claimed, batch, _ => Breaks(gone), _ => now);
    assert 0 in batch && batch[..0] == [] && claimed == [ClaimRow(row, now, lease)];
    assert DrainRows(claimed, batch[..0], _ => Breaks(gone), _ => now) == claimed;
    assert r == [Reported(ClaimRow(row, now, lease), Breaks(gone), now)];
    assert r[..0] == [] && [row][..0] == [];
  }

  lemma ClaimKeepsCounts(queue: seq<Row>, rows: seq<nat>, now: int, lease: nat)
    requires forall k :: 0 <= k < |rows| ==> rows[k] < |queue|
    ensures forall s: RowState :: CountState(ClaimRows(queue, rows, now, lease), s) == CountState(queue, s)
    ensures KeysAt(ClaimRows(queue, rows, now, lease), rows) == KeysAt(queue, rows)
  {
    forall s: RowState ensures CountState(ClaimRows(queue, rows, now, lease), s) == CountState(queue, s) {
      CountSame(ClaimRows(queue, rows, now, lease), queue, s);
    }
  }
}
