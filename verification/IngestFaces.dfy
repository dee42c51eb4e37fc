/** Whose face rows a photo has. */
module IngestFaces {
  import opened Ingest
  import opened IngestRuns
  import opened StorageKeys
  import opened Wrappers

  // -------------------------------------------------------------------------
  // Never a union
  // -------------------------------------------------------------------------

  /** Step `k` of the run is the detection of photo `p` that wrote `rows`. */
  ghost predicate Wrote(x: World, steps: seq<Step>, k: nat, p: nat, rows: seq<Face>)
    requires Valid(x) && k < |steps|
  {
    && steps[k].Detect? && steps[k].rows == rows
    && Enabled(Run(x, steps[..k]), steps[k]) && Current(Run(x, steps[..k]), steps[k].w) == p
  }

  ghost predicate FromOneCall(x: World, steps: seq<Step>, p: nat, rows: seq<Face>)
    requires Valid(x)
  {
    rows == [] || exists k: nat :: k < |steps| && Wrote(x, steps, k, p, rows)
  }

  lemma OneCallLater(x: World, steps: seq<Step>, s: Step, p: nat, rows: seq<Face>)
    requires Valid(x) && FromOneCall(x, steps, p, rows)
    ensures FromOneCall(x, steps + [s], p, rows)
  {
    if rows != [] {
      var k: nat :| k < |steps| && Wrote(x, steps, k, p, rows);
      assert (steps + [s])[..k] == steps[..k];
      assert Wrote(x, steps + [s], k, p, rows);
    }
  }

  /** After any run -- crashes, expired leases, stale writers, any engine -- a photo's face rows are
      none, or exactly those of a single detection of that photo. */
  lemma {:induction false} RowsFromOneCall(x: World, steps: seq<Step>, p: nat)
    requires Initial(x) && p < |Run(x, steps).db.faces|
    ensures FromOneCall(x, steps, p, Run(x, steps).db.faces[p])
    decreases |steps|
  {
    if steps != [] {
      var init, s := steps[..|steps| - 1], steps[|steps| - 1];
      var a, b := Run(x, init), Run(x, steps);
      assert init + [s] == steps;
      if s.Detect? && Enabled(a, s) && Current(a, s.w) == p {
        assert Wrote(x, steps, |init|, p, s.rows);
      } else if p < |a.db.faces| {
        RowsFromOneCall(x, init, p);
        assert b.db.faces[p] == a.db.faces[p];
        OneCallLater(x, init, s, p, a.db.faces[p]);
      }
    }
  }

  // -------------------------------------------------------------------------
  // A deterministic engine
  // -------------------------------------------------------------------------

  /** Detection is a function of the photo's content, which its key names. */
  ghost predicate Reproducible(x: World, s: Step, engine: string -> seq<Face>) {
    s.Detect? && Enabled(x, s) && Current(x, s.w) < |x.db.photos| ==>
      s.rows == engine(x.db.photos[Current(x, s.w)].key)
  }

  ghost predicate ReproducibleRun(x: World, steps: seq<Step>, engine: string -> seq<Face>)
    requires Valid(x)
  {
    steps == [] ||
    (ReproducibleRun(x, steps[..|steps| - 1], engine) && Reproducible(Run(x, steps[..|steps| - 1]), steps[|steps| - 1], engine))
  }

  ghost predicate CountsMatch(x: World, engine: string -> seq<Face>)
    requires Valid(x)
  {
    && (forall p :: 0 <= p < |x.db.photos| ==> x.db.faces[p] == [] || x.db.faces[p] == engine(x.db.photos[p].key))
    && (forall p :: 0 <= p < |x.db.photos| && x.db.photos[p].status.Indexed? ==>
          x.db.faces[p] == engine(x.db.photos[p].key) && x.db.photos[p].facesIndexed == |x.db.faces[p]|)
    && (forall w: nat :: OnPhoto(x, w) && x.workers[w].phase.Replaced? ==> Counted(x, w, engine))
  }

  ghost predicate Counted(x: World, w: nat, engine: string -> seq<Face>)
    requires Valid(x) && OnPhoto(x, w) && x.workers[w].phase.Replaced?
  {
    var id := Current(x, w);
    && id < |x.db.photos|
    && x.db.faces[id] == engine(x.db.photos[id].key)
    && x.workers[w].phase.indexed == |x.db.faces[id]|
  }

  lemma WorkerCounted(x: World, s: Step, engine: string -> seq<Face>, w: nat)
    requires Valid(x) && CountsMatch(x, engine) && Reproducible(x, s, engine) && Enabled(x, s)
    requires Valid(Next(x, s)) && OnPhoto(Next(x, s), w) && Next(x, s).workers[w].phase.Replaced?
    ensures Counted(Next(x, s), w, engine)
  {
    assert WorkerOk(x, x.workers[w]);
    if !(s.Detect? && s.w == w) {
      assert OnPhoto(x, w) && Counted(x, w, engine);
    }
  }

  lemma StepCountsMatch(x: World, s: Step, engine: string -> seq<Face>)
    requires Valid(x) && CountsMatch(x, engine) && Reproducible(x, s, engine)
    ensures Valid(Next(x, s)) && CountsMatch(Next(x, s), engine)
  {
    StepValid(x, s);
    if Enabled(x, s) {
      var y := Next(x, s);
      forall w: nat | OnPhoto(y, w) && y.workers[w].phase.Replaced? ensures Counted(y, w, engine) {
        WorkerCounted(x, s, engine, w);
      }
      if s.Succeed? {
        assert Counted(x, s.w, engine);
      }
    }
  }

  /** With such an engine, and however late or stale the writers, a done photo has exactly
      `faces_indexed` rows, and they are what the engine finds in it. */
  lemma {:induction false} DonePhotosComplete(x: World, steps: seq<Step>, engine: string -> seq<Face>)
    requires Initial(x) && ReproducibleRun(x, steps, engine)
    ensures CountsMatch(Run(x, steps), engine)
    decreases |steps|
  {
    if steps != [] {
      DonePhotosComplete(x, steps[..|steps| - 1], engine);
      StepCountsMatch(Run(x, steps[..|steps| - 1]), steps[|steps| - 1], engine);
    }
  }

  // -------------------------------------------------------------------------
  // Previews
  // -------------------------------------------------------------------------

  /** The photo's row names the preview and thumbnail of its own original. */
  ghost predicate Previewable(p: Photo) {
    p.preview == Some(PreviewKey(p.key)) && p.thumb == Some(ThumbKey(p.key))
  }

  ghost predicate PastPreview(x: World, w: nat) {
    OnPhoto(x, w) && (x.workers[w].phase.Derived? || x.workers[w].phase.Replaced?)
  }

  ghost predicate PreviewsRight(x: World) {
    && (forall p :: 0 <= p < |x.db.photos| ==> PhotoPreviewsRight(x.db.photos[p]))
    && (forall w: nat :: PastPreview(x, w) ==> Current(x, w) < |x.db.photos| && Previewable(x.db.photos[Current(x, w)]))
  }

  ghost predicate PhotoPreviewsRight(p: Photo) {
    (p.status.Indexed? ==> Previewable(p)) && (Previewable(p) || (p.preview.None? && p.thumb.None?))
  }

  lemma StepPreviews(x: World, s: Step)
    requires Valid(x) && PreviewsRight(x)
    ensures PreviewsRight(Next(x, s))
  {
    var y := Next(x, s);
    StepValid(x, s);
    if Enabled(x, s) {
      forall w: nat | PastPreview(y, w) ensures Current(y, w) < |y.db.photos| && Previewable(y.db.photos[Current(y, w)]) {
        WorkerPreview(x, s, w);
      }
      forall p | 0 <= p < |y.db.photos| ensures PhotoPreviewsRight(y.db.photos[p]) {
        PhotoPreview(x, s, p);
      }
    }
  }

  lemma WorkerPreview(x: World, s: Step, w: nat)
    requires Valid(x) && PreviewsRight(x) && Enabled(x, s) && PastPreview(Next(x, s), w)
    ensures var y := Next(x, s); Current(y, w) < |y.db.photos| && Previewable(y.db.photos[Current(y, w)])
  {
    assert WorkerOk(x, x.workers[w]);
    if !(s.Preview? && s.w == w) {
      assert PastPreview(x, w);
    }
  }

  lemma PhotoPreview(x: World, s: Step, p: nat)
    requires Valid(x) && PreviewsRight(x) && Enabled(x, s) && p < |Next(x, s).db.photos|
    ensures PhotoPreviewsRight(Next(x, s).db.photos[p])
  {
    if p < |x.db.photos| {
      assert PhotoPreviewsRight(x.db.photos[p]);
    }
    if s.Succeed? {
      assert PastPreview(x, s.w);
    }
  }

  /** In every run -- crashes, stale workers, retries -- a done photo's row names its own preview and
      thumbnail, and no photo's row ever names any other. */
  lemma {:induction false} DonePhotosHavePreviews(x: World, steps: seq<Step>)
    requires Initial(x)
    ensures PreviewsRight(Run(x, steps))
    decreases |steps|
  {
    if steps != [] {
      DonePhotosHavePreviews(x, steps[..|steps| - 1]);
      StepPreviews(Run(x, steps[..|steps| - 1]), steps[|steps| - 1]);
    }
  }
}
