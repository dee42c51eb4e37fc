/** Sweeping both tier sets on one grid, and choosing the two thresholds from the result. */
module Selection {
  import opened Wrappers
  import opened Scoring

  const TARGET_PRECISION := 0.99

  ghost predicate Ascending(grid: seq<real>) {
    forall k, l :: 0 <= k < l < |grid| ==> grid[k] < grid[l]
  }

  /** The swept values: `n` points from `start`, `step` apart. */
  function Grid(start: real, step: real, n: nat): (r: seq<real>)
    requires step > 0.0
    ensures |r| == n && Ascending(r) && forall k :: 0 <= k < n ==> r[k] >= start
  {
    var r := seq(n, k requires 0 <= k < n => start + step * k as real);
    assert Ascending(r) by {
      forall k, l | 0 <= k < l < n ensures r[k] < r[l] {
        assert step * (l - k) as real > 0.0;
        assert r[l] == r[k] + step * (l - k) as real;
      }
    }
    r
  }

  // -------------------------------------------------------------------------
  // Tables to pairs
  // -------------------------------------------------------------------------

  function PairRow(scores: array2<Score>, truth: seq<seq<bool>>, p: nat): (r: seq<Pair>)
    requires |truth| == scores.Length0 && p < |truth| && |truth[p]| == scores.Length1
    reads scores
    ensures |r| == scores.Length1 && forall i :: 0 <= i < |r| ==> r[i] == Pair(scores[p, i], truth[p][i])
  {
    seq(scores.Length1, i requires 0 <= i < scores.Length1 reads scores => Pair(scores[p, i], truth[p][i]))
  }

  function PairsBelow(scores: array2<Score>, truth: seq<seq<bool>>, p: nat): (r: seq<Pair>)
    requires |truth| == scores.Length0 && p <= |truth| && forall q :: 0 <= q < |truth| ==> |truth[q]| == scores.Length1
    reads scores
  {
    if p == 0 then [] else PairsBelow(scores, truth, p - 1) + PairRow(scores, truth, p - 1)
  }

  lemma DominatedAppend(a: seq<Pair>, b: seq<Pair>, c: seq<Pair>, d: seq<Pair>)
    requires Dominated(a, b) && Dominated(c, d)
    ensures Dominated(a + c, b + d)
  {
  }

  lemma {:induction false} TablesDominate(few: array2<Score>, many: array2<Score>, truth: seq<seq<bool>>, p: nat)
    requires |truth| == few.Length0 == many.Length0 && few.Length1 == many.Length1 && p <= |truth|
    requires forall q :: 0 <= q < |truth| ==> |truth[q]| == few.Length1
    requires forall q, i :: 0 <= q < |truth| && 0 <= i < few.Length1 ==> Below(few[q, i], many[q, i])
    ensures Dominated(PairsBelow(few, truth, p), PairsBelow(many, truth, p))
  {
    if p > 0 {
      TablesDominate(few, many, truth, p - 1);
      DominatedAppend(PairsBelow(few, truth, p - 1), PairsBelow(many, truth, p - 1),
                      PairRow(few, truth, p - 1), PairRow(many, truth, p - 1));
    }
  }

  /** What a person's row of pairs should hold: their best score over the qualifying faces. */
  function PersonPairs(sims: seq<real>, faces: seq<IndexedFace>, photos: nat, truth: seq<bool>, tiers: set<int>): (r: seq<Pair>)
    requires |sims| == |faces| && |truth| == photos
    ensures |r| == photos
    ensures forall i: nat :: i < photos ==> r[i] == Pair(BestAfter(sims, faces, i, Selected(faces, tiers)).score, truth[i])
  {
    seq(photos, i requires 0 <= i < photos =>
      var photo: nat := i; Pair(BestAfter(sims, faces, photo, Selected(faces, tiers)).score, truth[i]))
  }

  /** Every (person, photograph) pair, for the first `p` people. */
  function PairsOf(sims: seq<seq<real>>, faces: seq<IndexedFace>, photos: nat, truth: seq<seq<bool>>, tiers: set<int>, p: nat)
      : (r: seq<Pair>)
    requires p <= |sims| == |truth|
    requires forall q :: 0 <= q < |sims| ==> |sims[q]| == |faces| && |truth[q]| == photos
  {
    if p == 0 then [] else PairsOf(sims, faces, photos, truth, tiers, p - 1) + PersonPairs(sims[p - 1], faces, photos, truth[p - 1], tiers)
  }

  lemma BestScoresAgree(sims: seq<real>, faces: seq<IndexedFace>, photo: PhotoId, tiers: set<int>, b: Best)
    requires |sims| == |faces| && IsBest(sims, faces, photo, tiers, b)
    ensures b.score == BestAfter(sims, faces, photo, Selected(faces, tiers)).score
  {
    BestAfterIsBest(sims, faces, photo, tiers);
  }

  lemma {:induction false} TableIsPairs(scores: array2<Score>, bestFace: array2<int>, sims: seq<seq<real>>, faces: seq<IndexedFace>,
                                        photos: nat, truth: seq<seq<bool>>, tiers: set<int>, p: nat)
    requires scores.Length0 == bestFace.Length0 == |sims| == |truth| && scores.Length1 == bestFace.Length1 == photos && p <= |sims|
    requires forall q :: 0 <= q < |sims| ==> |sims[q]| == |faces| && |truth[q]| == photos
    requires forall q, i: nat :: 0 <= q < |sims| && i < photos ==> IsBest(sims[q], faces, i, tiers, At(scores, bestFace, q, i))
    ensures PairsBelow(scores, truth, p) == PairsOf(sims, faces, photos, truth, tiers, p)
  {
    if p > 0 {
      TableIsPairs(scores, bestFace, sims, faces, photos, truth, tiers, p - 1);
      var a, b := PairRow(scores, truth, p - 1), PersonPairs(sims[p - 1], faces, photos, truth[p - 1], tiers);
      forall i: nat | i < photos ensures a[i] == b[i] {
        BestScoresAgree(sims[p - 1], faces, i, tiers, At(scores, bestFace, p - 1, i));
      }
    }
  }

  ghost predicate SweptOn(rows: seq<SweepRow>, pairs: seq<Pair>, grid: seq<real>) {
    |rows| == |grid| && forall k :: 0 <= k < |grid| ==> rows[k] == RowAt(pairs, grid[k])
  }

  lemma BestReaches(rows: seq<SweepRow>, pairs: seq<Pair>, grid: seq<real>)
    requires SweptOn(rows, pairs, grid) && rows != []
    ensures MaxPrecision(rows) >= TARGET_PRECISION <==> Reaches(pairs, grid)
  {
    if MaxPrecision(rows) >= TARGET_PRECISION {
      var k :| 0 <= k < |rows| && rows[k].precision == MaxPrecision(rows);
      assert RowAt(pairs, grid[k]).precision >= TARGET_PRECISION;
    }
    if k :| 0 <= k < |grid| && RowAt(pairs, grid[k]).precision >= TARGET_PRECISION {
      assert rows[k].precision <= MaxPrecision(rows);
    }
  }

  predicate Reaches(pairs: seq<Pair>, grid: seq<real>) {
    exists k :: 0 <= k < |grid| && RowAt(pairs, grid[k]).precision >= TARGET_PRECISION
  }

  function MaxPrecision(rows: seq<SweepRow>): (r: real)
    requires rows != []
    ensures forall k :: 0 <= k < |rows| ==> rows[k].precision <= r
    ensures exists k :: 0 <= k < |rows| && rows[k].precision == r
  {
    if |rows| == 1 then rows[0].precision
    else
      var m := MaxPrecision(rows[1..]);
      if rows[0].precision >= m then rows[0].precision
      else
        assert exists k :: 0 <= k < |rows[1..]| && rows[1..][k].precision == m && rows[k + 1] == rows[1..][k];
        m
  }

  /** Both sweeps of `eval.run`: the confident one over tier 2, extended once when the target is
      out of reach, and then the all-tier one over whichever grid the first ended on. */
  method RunSweeps(sims: seq<seq<real>>, faces: seq<IndexedFace>, photos: nat, truth: seq<seq<bool>>,
                   grid0: seq<real>, extended: seq<real>, mayExtend: bool)
      returns (confidentRows: seq<SweepRow>, allRows: seq<SweepRow>, grid: seq<real>,
               confident: seq<Pair>, all: seq<Pair>)
    requires forall p :: 0 <= p < |sims| ==> |sims[p]| == |faces|
    requires forall f :: 0 <= f < |faces| ==> faces[f].photo < photos
    requires |truth| == |sims| && forall p :: 0 <= p < |truth| ==> |truth[p]| == photos
    requires grid0 != []
    ensures confident == PairsOf(sims, faces, photos, truth, {2}, |sims|)
    ensures all == PairsOf(sims, faces, photos, truth, {1, 2}, |sims|)
    ensures Dominated(confident, all)
    // the grid is extended exactly when nothing on it reaches the target
    ensures grid == if !Reaches(confident, grid0) && mayExtend then extended else grid0
    ensures SweptOn(confidentRows, confident, grid) && SweptOn(allRows, all, grid)
  {
    var tierTwo, face2 := ScorePairs(sims, faces, photos, {2});
    var allTiers, face12 := ScorePairs(sims, faces, photos, {1, 2});
    confident := PairsBelow(tierTwo, truth, |truth|);
    all := PairsBelow(allTiers, truth, |truth|);
    forall q, i | 0 <= q < |truth| && 0 <= i < photos ensures Below(tierTwo[q, i], allTiers[q, i]) {
      var j: nat := i;
      MoreTiersDominate(sims[q], faces, j, {2}, {1, 2}, At(tierTwo, face2, q, j), At(allTiers, face12, q, j));
    }
    TablesDominate(tierTwo, allTiers, truth, |truth|);
    TableIsPairs(tierTwo, face2, sims, faces, photos, truth, {2}, |sims|);
    TableIsPairs(allTiers, face12, sims, faces, photos, truth, {1, 2}, |sims|);

    grid := grid0;
    confidentRows := Sweep(confident, grid);
    BestReaches(confidentRows, confident, grid0);
    if MaxPrecision(confidentRows) < TARGET_PRECISION && mayExtend {
      confidentRows := Sweep(confident, extended);
      grid := extended;
    }
    allRows := Sweep(all, grid);
  }

  // -------------------------------------------------------------------------
  // Choosing
  // -------------------------------------------------------------------------

  /** pick_t_high: the first row reaching the target; None is the exception. */
  method PickHigh(rows: seq<SweepRow>, target: real) returns (pick: Option<nat>)
    ensures pick == FirstReaching(rows, target)
  {
    for k := 0 to |rows|
      invariant FirstReaching(rows, target) == LaterReaching(rows, target, k)
    {
      if rows[k].precision >= target {
        return Some(k);
      }
    }
    return None;
  }

  function LaterReaching(rows: seq<SweepRow>, target: real, k: nat): (r: Option<nat>)
    requires k <= |rows|
    ensures r.Some? ==> k <= r.value < |rows| && rows[r.value].precision >= target
    ensures forall l :: k <= l < (if r.Some? then r.value else |rows|) ==> rows[l].precision < target
    decreases |rows| - k
  {
    if k == |rows| then None
    else if rows[k].precision >= target then Some(k)
    else LaterReaching(rows, target, k + 1)
  }

  function FirstReaching(rows: seq<SweepRow>, target: real): (r: Option<nat>)
    ensures r.Some? ==> r.value < |rows| && rows[r.value].precision >= target
    ensures forall l :: 0 <= l < (if r.Some? then r.value else |rows|) ==> rows[l].precision < target
  {
    LaterReaching(rows, target, 0)
  }

  predicate Eligible(r: SweepRow, target: real, ceiling: real) {
    r.recall >= target && r.threshold <= ceiling
  }

  /** `max(eligible, key=threshold)`: the first eligible row no later eligible row exceeds. */
  function HighestEligible(rows: seq<SweepRow>, target: real, ceiling: real): (r: Option<nat>)
    ensures r.None? ==> forall k :: 0 <= k < |rows| ==> !Eligible(rows[k], target, ceiling)
    ensures r.Some? ==> r.value < |rows| && Eligible(rows[r.value], target, ceiling)
    ensures r.Some? ==> forall k :: 0 <= k < |rows| && Eligible(rows[k], target, ceiling) ==>
      rows[k].threshold <= rows[r.value].threshold
    decreases |rows|
  {
    if rows == [] then None
    else
      var init := HighestEligible(rows[..|rows| - 1], target, ceiling);
      var last := rows[|rows| - 1];
      if Eligible(last, target, ceiling) && (init.None? || last.threshold > rows[init.value].threshold)
      then Some(|rows| - 1) else init
  }

  /** pick_t_low, as an index into the rows. */
  function PickLow(rows: seq<SweepRow>, target: real, ceiling: real): (r: nat)
    requires rows != []
    ensures r < |rows|
  {
    var best := HighestEligible(rows, target, ceiling);
    if best.Some? then best.value else 0
  }

  /** What both loaders demand of the written pair. */
  predicate LoaderAccepts(low: real, high: real) {
    0.0 < low && low <= high && high < 1.0
  }

  /** On one ascending grid inside (0, 1) the chosen pair is always loadable, each is optimal in
      its direction, and the fallback is taken exactly when even the lowest threshold misses. */
  lemma ChosenPair(confident: seq<Pair>, all: seq<Pair>, grid: seq<real>, confidentRows: seq<SweepRow>,
                   allRows: seq<SweepRow>, precision: real, recall: real)
    requires grid != [] && Ascending(grid) && 0.0 < grid[0] && grid[|grid| - 1] < 1.0
    requires SweptOn(confidentRows, confident, grid) && SweptOn(allRows, all, grid)
    requires FirstReaching(confidentRows, precision).Some?
    ensures var h := FirstReaching(confidentRows, precision).value;
            var l := PickLow(allRows, recall, confidentRows[h].threshold);
            && LoaderAccepts(grid[l], grid[h]) && l <= h
            && confidentRows[h].precision >= precision
            && (forall k :: 0 <= k < h ==> confidentRows[k].precision < precision)
            && (if allRows[0].recall >= recall
                then (forall k :: 0 <= k <= h ==> (allRows[k].recall >= recall <==> k <= l))
                else l == 0 && forall k :: 0 <= k < |grid| ==> allRows[k].recall < recall)
  {
    var h := FirstReaching(confidentRows, precision).value;
    var l := PickLow(allRows, recall, confidentRows[h].threshold);
    assert grid[0] <= grid[h] <= grid[|grid| - 1];
    forall i, k | 0 <= i <= k < |grid| ensures allRows[k].recall <= allRows[i].recall {
      SweepFalls(all, grid[i], grid[k]);
    }
    if allRows[0].recall >= recall {
      assert Eligible(allRows[0], recall, confidentRows[h].threshold);
      assert Eligible(allRows[l], recall, confidentRows[h].threshold);
      assert grid[l] <= grid[h];
      forall k | 0 <= k <= h ensures allRows[k].recall >= recall <==> k <= l {
        if allRows[k].recall >= recall {
          assert Eligible(allRows[k], recall, confidentRows[h].threshold);
        }
      }
    } else {
      forall k | 0 <= k < |grid| ensures allRows[k].recall < recall {
        assert allRows[k].recall <= allRows[0].recall;
      }
    }
  }

  predicate PredictsNothing(pairs: seq<Pair>, t: real) {
    forall p :: p in pairs ==> !Predicted(p, t)
  }

  lemma {:induction false} NothingPredicted(pairs: seq<Pair>, t: real)
    ensures CountTp(pairs, t) + CountFp(pairs, t) == 0 <==> PredictsNothing(pairs, t)
    decreases |pairs|
  {
    if pairs != [] {
      var n := |pairs| - 1;
      NothingPredicted(pairs[..n], t);
      assert pairs == pairs[..n] + [pairs[n]];
    }
  }

  /** The precision at a threshold, by its counts alone. */
  predicate FallsShort(pairs: seq<Pair>, t: real, target: real) {
    CountTp(pairs, t) as real < target * (CountTp(pairs, t) + CountFp(pairs, t)) as real
  }

  lemma ShareBelow(x: real, part: real, whole: real, target: real)
    requires whole > 0.0 && x * whole == part
    ensures x < target <==> part < target * whole
  {
    assert (target - x) * whole == target * whole - part;
  }

  /** A row misses the target exactly when it predicts something and too little of that is true. */
  lemma MissesIff(pairs: seq<Pair>, t: real, target: real)
    requires 0.0 < target <= 1.0
    ensures RowAt(pairs, t).precision < target <==> FallsShort(pairs, t, target)
  {
    var tp, n := CountTp(pairs, t), CountTp(pairs, t) + CountFp(pairs, t);
    if n > 0 {
      ShareBelow(Ratio(tp, n, 1.0), tp as real, n as real, target);
    }
  }

  /** The first threshold that predicts nothing comes before any that reaches the target by its counts. */
  ghost predicate SilenceFirst(pairs: seq<Pair>, grid: seq<real>, target: real, k: int) {
    && 0 <= k < |grid| && PredictsNothing(pairs, grid[k])
    && forall j :: 0 <= j < k ==> FallsShort(pairs, grid[j], target)
  }

  /** An empty prediction counts as precision 1.  So a threshold that predicts nothing at all is chosen
      exactly when one is on the grid before any threshold whose counts reach the target. */
  lemma HighIsVacuousIff(pairs: seq<Pair>, grid: seq<real>, rows: seq<SweepRow>, target: real)
    requires SweptOn(rows, pairs, grid) && 0.0 < target <= 1.0
    ensures var pick := FirstReaching(rows, target);
            (pick.Some? && PredictsNothing(pairs, grid[pick.value])) <==> exists k :: SilenceFirst(pairs, grid, target, k)
  {
    forall j | 0 <= j < |grid| ensures rows[j].precision < target <==> FallsShort(pairs, grid[j], target) {
      MissesIff(pairs, grid[j], target);
    }
    var pick := FirstReaching(rows, target);
    if pick.Some? && PredictsNothing(pairs, grid[pick.value]) {
      assert SilenceFirst(pairs, grid, target, pick.value);
    }
    if k :| SilenceFirst(pairs, grid, target, k) {
      NothingPredicted(pairs, grid[k]);
      assert !FallsShort(pairs, grid[k], target);
    }
  }

  /** It happens: someone's one appearance has no face in the index, a stranger's photograph scores between
      the two thresholds, and the second is chosen. */
  lemma HighIsVacuous(rows: seq<SweepRow>)
    requires SweptOn(rows, [Pair(None, true), Pair(Some(0.5), false)], [0.30, 0.60])
    ensures FirstReaching(rows, TARGET_PRECISION) == Some(1) && rows[1].tp == rows[1].fp == 0
  {
    var pairs, grid := [Pair(None, true), Pair(Some(0.5), false)], [0.30, 0.60];
    CountsOfTwo(pairs[0], pairs[1], grid[0]);
    CountsOfTwo(pairs[0], pairs[1], grid[1]);
    assert pairs == [pairs[0], pairs[1]];
    assert rows[0] == RowAt(pairs, grid[0]) && rows[1] == RowAt(pairs, grid[1]);
  }

  lemma CountsOfTwo(a: Pair, b: Pair, t: real)
    requires a == Pair(None, true) && b == Pair(Some(0.5), false)
    ensures CountTp([a, b], t) == 0 && CountFp([a, b], t) == if t <= 0.5 then 1 else 0
  {
    assert [a, b][..1] == [a];
    assert [a][..0] == [];
    assert CountTp([a], t) == 0 && CountFp([a], t) == 0;
  }
}
