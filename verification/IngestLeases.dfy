/** When leases exclude: no discipline, the discipline, and what breaks it. */
module IngestLeases {
  import opened Wrappers
  import opened Ingest
  import opened IngestRuns

  /** Worker `w` still has `batch[k]` to finish and believes its lease is not over. */
  ghost predicate Live(x: World, w: nat, k: nat) {
    && Working(x, w) && |x.workers[w].views| == |x.workers[w].batch|
    && x.workers[w].pos <= k < |x.workers[w].batch|
    && x.now <= x.workers[w].views[k]
  }

  /** The row says what the worker believes. */
  ghost predicate Backed(x: World, w: nat, k: nat)
    requires Live(x, w, k)
  {
    var id := x.workers[w].batch[k];
    && id < |x.db.jobs|
    && x.db.jobs[id].state.Running?
    && x.db.jobs[id].lockedBy == Some(w)
    && x.db.jobs[id].lockedUntil.Some?
    && x.db.jobs[id].lockedUntil.value >= x.workers[w].views[k]
  }

  ghost predicate LeasesHold(x: World) {
    forall w: nat, k: nat :: Live(x, w, k) ==> Backed(x, w, k)
  }

  /** The discipline: a worker reports a job only while it believes its lease on it. */
  ghost predicate Timely(x: World, s: Step) {
    (s.Succeed? || s.Fail?) && Enabled(x, s) ==> Live(x, s.w, x.workers[s.w].pos)
  }

  ghost predicate TimelyRun(x: World, steps: seq<Step>)
    requires Valid(x)
  {
    steps == [] ||
    (TimelyRun(x, steps[..|steps| - 1]) && Timely(Run(x, steps[..|steps| - 1]), steps[|steps| - 1]))
  }

  // -------------------------------------------------------------------------
  // Each step keeps every live lease backed
  // -------------------------------------------------------------------------

  lemma TakeKeepsLeases(x: World, w: nat, batch: seq<nat>)
    requires Valid(x) && LeasesHold(x) && Enabled(x, Take(w, batch))
    ensures LeasesHold(DoTake(x, w, batch))
  {
    var y := DoTake(x, w, batch);
    forall v: nat, k: nat | Live(y, v, k) ensures Backed(y, v, k) {
      if v != w {
        assert Live(x, v, k) && Backed(x, v, k);
      }
    }
  }

  lemma BeatKeepsLeases(x: World, w: nat)
    requires Valid(x) && LeasesHold(x) && Enabled(x, Beat(w))
    ensures LeasesHold(DoBeat(x, w))
  {
    var y := DoBeat(x, w);
    forall v: nat, k: nat | Live(y, v, k) ensures Backed(y, v, k) {
      assert WorkerOk(x, x.workers[v]);
      assert Live(x, v, k) && Backed(x, v, k);
    }
  }

  /** Any report is safe unless somebody else believes in a lease on that job. */
  ghost predicate Trespass(x: World, w: nat)
    requires OnPhoto(x, w)
  {
    exists v: nat, k: nat :: v != w && Live(x, v, k) && x.workers[v].batch[k] == Current(x, w)
  }

  lemma FinishKeepsLeases(x: World, w: nat, ok: bool, error: Option<string>, indexed: nat, rejected: nat)
    requires Valid(x) && LeasesHold(x) && OnPhoto(x, w) && !Trespass(x, w)
    ensures LeasesHold(DoFinish(x, w, ok, error, indexed, rejected))
  {
    var y := DoFinish(x, w, ok, error, indexed, rejected);
    var id := Current(x, w);
    forall v: nat, k: nat | Live(y, v, k) ensures Backed(y, v, k) {
      assert WorkerOk(x, x.workers[v]);
      assert Live(x, v, k) && Backed(x, v, k);
      assert x.workers[v].batch[k] != id;
    }
  }

  /** A report breaks the leases exactly when it trespasses: the missing test is `locked_by`. */
  lemma FinishSafeIffNoTrespass(x: World, w: nat, ok: bool, error: Option<string>, indexed: nat, rejected: nat)
    requires Valid(x) && LeasesHold(x) && OnPhoto(x, w)
    ensures LeasesHold(DoFinish(x, w, ok, error, indexed, rejected)) <==> !Trespass(x, w)
    ensures x.db.jobs[Current(x, w)].lockedBy == Some(w) ==> !Trespass(x, w)
  {
    var y := DoFinish(x, w, ok, error, indexed, rejected);
    if Trespass(x, w) {
      var v: nat, k: nat :| v != w && Live(x, v, k) && x.workers[v].batch[k] == Current(x, w);
      assert Backed(x, v, k);
      assert Live(y, v, k);
      assert !y.db.jobs[Current(x, w)].state.Running?;
      assert !Backed(y, v, k);
    } else {
      FinishKeepsLeases(x, w, ok, error, indexed, rejected);
    }
  }

  lemma TimelyIsNoTrespass(x: World, w: nat)
    requires Valid(x) && LeasesHold(x) && OnPhoto(x, w) && Live(x, w, x.workers[w].pos)
    ensures !Trespass(x, w)
    ensures x.db.jobs[Current(x, w)].state.Running?
  {
    assert Backed(x, w, x.workers[w].pos);
    forall v: nat, k: nat | v != w && Live(x, v, k) ensures x.workers[v].batch[k] != Current(x, w) {
      assert Backed(x, v, k);
    }
  }

  lemma OtherStepsKeepLeases(x: World, s: Step)
    requires Valid(x) && LeasesHold(x) && (s.Tick? || s.Deliver? || s.Preview? || s.Detect? || s.Crash?)
    ensures LeasesHold(Next(x, s))
  {
    var y := Next(x, s);
    forall v: nat, k: nat | Live(y, v, k) ensures Backed(y, v, k) {
      assert WorkerOk(x, x.workers[v]);
      assert Live(x, v, k) && Backed(x, v, k);
    }
  }

  lemma StepKeepsLeases(x: World, s: Step)
    requires Valid(x) && LeasesHold(x) && Timely(x, s)
    ensures LeasesHold(Next(x, s))
  {
    if Enabled(x, s) {
      match s
      case Take(w, batch) => TakeKeepsLeases(x, w, batch);
      case Beat(w) => BeatKeepsLeases(x, w);
      case Succeed(w) =>
        TimelyIsNoTrespass(x, w);
        FinishKeepsLeases(x, w, true, None, x.workers[w].phase.indexed, x.workers[w].phase.rejected);
      case Fail(w, error) =>
        TimelyIsNoTrespass(x, w);
        FinishKeepsLeases(x, w, false, Some(error), 0, 0);
      case _ => OtherStepsKeepLeases(x, s);
    }
  }

  lemma {:induction false} RunKeepsLeases(x: World, steps: seq<Step>)
    requires Initial(x) && TimelyRun(x, steps)
    ensures LeasesHold(Run(x, steps))
    decreases |steps|
  {
    if steps != [] {
      RunKeepsLeases(x, steps[..|steps| - 1]);
      StepKeepsLeases(Run(x, steps[..|steps| - 1]), steps[|steps| - 1]);
    }
  }

  /** After any timely run: no claim can return a job while another worker's lease on it is live,
      and no two workers believe in a lease on the same job. */
  lemma LeasesExclude(x: World, steps: seq<Step>, w: nat, batch: seq<nat>, v: nat, k: nat)
    requires Initial(x) && TimelyRun(x, steps)
    requires Live(Run(x, steps), v, k)
    ensures var y := Run(x, steps); var id := y.workers[v].batch[k];
            && (Enabled(y, Take(w, batch)) ==> id !in batch)
            && (forall u: nat, l: nat :: Live(y, u, l) && y.workers[u].batch[l] == id ==> u == v && l == k)
  {
    var y := Run(x, steps);
    RunKeepsLeases(x, steps);
    var id := y.workers[v].batch[k];
    assert Backed(y, v, k) && WorkerOk(y, y.workers[v]);
    assert !Claimable(y.db.jobs[id], y.now);
    forall u: nat, l: nat | Live(y, u, l) && y.workers[u].batch[l] == id ensures u == v && l == k {
      assert Backed(y, u, l);
    }
  }

  // -------------------------------------------------------------------------
  // One common lease length
  // -------------------------------------------------------------------------

  /** A renewal of any ids for `lease` seconds, by anybody, keeps the leases exactly when it does
      not pull a job below what its holder was promised. */
  lemma RenewSafeIffNotShorter(x: World, ids: seq<nat>, lease: nat)
    requires Valid(x) && LeasesHold(x)
    ensures LeasesHold(x.(db := Renew(x.db, ids, x.now, lease))) <==>
      forall v: nat, k: nat :: Live(x, v, k) && x.workers[v].batch[k] in ids ==> x.workers[v].views[k] <= x.now + lease
  {
    var y := x.(db := Renew(x.db, ids, x.now, lease));
    forall v: nat, k: nat ensures Live(x, v, k) <==> Live(y, v, k) {
    }
    if LeasesHold(y) {
      forall v: nat, k: nat | Live(x, v, k) && x.workers[v].batch[k] in ids ensures x.workers[v].views[k] <= x.now + lease {
        assert Live(y, v, k) && Backed(y, v, k) && Backed(x, v, k);
      }
    }
    if forall v: nat, k: nat :: Live(x, v, k) && x.workers[v].batch[k] in ids ==> x.workers[v].views[k] <= x.now + lease {
      forall v: nat, k: nat | Live(y, v, k) ensures Backed(y, v, k) {
        assert Live(x, v, k) && Backed(x, v, k);
      }
    }
  }
}
