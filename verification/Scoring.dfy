/** Scoring (person, photograph) pairs and sweeping a threshold over them. */
module Scoring {

  import opened Wrappers

  type PhotoId = nat

  /** One indexed face: the photograph it is in and its quality tier. */
  datatype IndexedFace = IndexedFace(photo: PhotoId, tier: int)

  /** None stands for minus infinity. */
  type Score = Option<real>

  datatype Best = Best(score: Score, face: int)

  predicate Beats(s: real, score: Score) {
    score.None? || s > score.value
  }

  /** The rows of the index whose tier qualifies, ascending. */
  function Selected(faces: seq<IndexedFace>, tiers: set<int>): (r: seq<nat>)
    ensures forall k :: 0 <= k < |r| ==> r[k] < |faces| && faces[r[k]].tier in tiers
    ensures forall f: nat :: f < |faces| && faces[f].tier in tiers ==> f in r
    ensures forall k, l :: 0 <= k < l < |r| ==> r[k] < r[l]
    decreases |faces|
  {
    if faces == [] then []
    else
      var init := Selected(faces[..|faces| - 1], tiers);
      if faces[|faces| - 1].tier in tiers then init + [|faces| - 1] else init
  }

  /** One person's best face in one photograph, after the listed faces. */
  function BestAfter(sims: seq<real>, faces: seq<IndexedFace>, photo: PhotoId, rows: seq<nat>): (r: Best)
    requires |sims| == |faces| && forall k :: 0 <= k < |rows| ==> rows[k] < |faces|
    decreases |rows|
  {
    if rows == [] then Best(None, -1)
    else
      var before, f := BestAfter(sims, faces, photo, rows[..|rows| - 1]), rows[|rows| - 1];
      if faces[f].photo == photo && Beats(sims[f], before.score) then Best(Some(sims[f]), f) else before
  }

  /** A face of the photograph that may contribute. */
  ghost predicate Qualifies(faces: seq<IndexedFace>, photo: PhotoId, tiers: set<int>, f: int) {
    0 <= f < |faces| && faces[f].photo == photo && faces[f].tier in tiers
  }

  /** What a pair's score means: the maximum, and the first face that attains it. */
  ghost predicate IsBest(sims: seq<real>, faces: seq<IndexedFace>, photo: PhotoId, tiers: set<int>, b: Best)
    requires |sims| == |faces|
  {
    match b.score
    case None => b.face == -1 && forall f :: !Qualifies(faces, photo, tiers, f)
    case Some(s) =>
      && Qualifies(faces, photo, tiers, b.face) && sims[b.face] == s
      && (forall f :: Qualifies(faces, photo, tiers, f) ==> sims[f] <= s)
      && (forall f :: Qualifies(faces, photo, tiers, f) && f < b.face ==> sims[f] < s)
  }

  ghost predicate BestAmong(sims: seq<real>, faces: seq<IndexedFace>, photo: PhotoId, rows: seq<nat>, b: Best)
    requires |sims| == |faces| && forall k :: 0 <= k < |rows| ==> rows[k] < |faces|
  {
    match b.score
    case None => b.face == -1 && forall k :: 0 <= k < |rows| ==> faces[rows[k]].photo != photo
    case Some(s) =>
      && b.face in rows && faces[b.face].photo == photo && sims[b.face] == s
      && (forall k :: 0 <= k < |rows| && faces[rows[k]].photo == photo ==> sims[rows[k]] <= s)
      && (forall k :: 0 <= k < |rows| && faces[rows[k]].photo == photo && rows[k] < b.face ==> sims[rows[k]] < s)
  }

  lemma {:induction false} BestAfterAmong(sims: seq<real>, faces: seq<IndexedFace>, photo: PhotoId, rows: seq<nat>)
    requires |sims| == |faces| && forall k :: 0 <= k < |rows| ==> rows[k] < |faces|
    requires forall k, l :: 0 <= k < l < |rows| ==> rows[k] < rows[l]
    ensures BestAmong(sims, faces, photo, rows, BestAfter(sims, faces, photo, rows))
    decreases |rows|
  {
    if rows != [] {
      var init := rows[..|rows| - 1];
      BestAfterAmong(sims, faces, photo, init);
      assert forall k :: 0 <= k < |init| ==> init[k] == rows[k];
      assert rows == init + [rows[|rows| - 1]];
    }
  }

  lemma BestAfterIsBest(sims: seq<real>, faces: seq<IndexedFace>, photo: PhotoId, tiers: set<int>)
    requires |sims| == |faces|
    ensures IsBest(sims, faces, photo, tiers, BestAfter(sims, faces, photo, Selected(faces, tiers)))
  {
    var rows := Selected(faces, tiers);
    BestAfterAmong(sims, faces, photo, rows);
    forall f | Qualifies(faces, photo, tiers, f) ensures exists k :: 0 <= k < |rows| && rows[k] == f {
      assert f in rows;
    }
  }

  /** What one more face does to one cell. */
  function Improve(b: Best, sim: real, face: int): Best {
    if Beats(sim, b.score) then Best(Some(sim), face) else b
  }

  lemma BestAfterSnoc(sims: seq<real>, faces: seq<IndexedFace>, photo: PhotoId, rows: seq<nat>, c: nat)
    requires |sims| == |faces| && c < |rows| && forall k :: 0 <= k < |rows| ==> rows[k] < |faces|
    ensures var b := BestAfter(sims, faces, photo, rows[..c]);
            BestAfter(sims, faces, photo, rows[..c + 1]) ==
            if faces[rows[c]].photo == photo then Improve(b, sims[rows[c]], rows[c]) else b
  {
    assert rows[..c + 1][..c] == rows[..c];
  }

  function At(scores: array2<Score>, bestFace: array2<int>, p: int, i: int): Best
    requires 0 <= p < scores.Length0 == bestFace.Length0 && 0 <= i < scores.Length1 == bestFace.Length1
    reads scores, bestFace
  {
    Best(scores[p, i], bestFace[p, i])
  }

  /** One column: where the face beats a person's score for its photograph, it replaces it. */
  method AddFace(scores: array2<Score>, bestFace: array2<int>, column: seq<real>, photo: nat, face: int)
    requires scores.Length0 == bestFace.Length0 == |column| && photo < scores.Length1 == bestFace.Length1
    modifies scores, bestFace
    ensures forall p, i :: 0 <= p < scores.Length0 && 0 <= i < scores.Length1 ==>
      At(scores, bestFace, p, i) ==
      if i == photo then Improve(old(At(scores, bestFace, p, i)), column[p], face) else old(At(scores, bestFace, p, i))
  {
    for q := 0 to |column|
      invariant forall p, i :: 0 <= p < scores.Length0 && 0 <= i < scores.Length1 ==>
        At(scores, bestFace, p, i) ==
        if i == photo && p < q then Improve(old(At(scores, bestFace, p, i)), column[p], face) else old(At(scores, bestFace, p, i))
    {
      if Beats(column[q], scores[q, photo]) {
        scores[q, photo] := Some(column[q]);
        bestFace[q, photo] := face;
      }
    }
  }

  /** The face's similarity to every person. */
  function Column(sims: seq<seq<real>>, f: nat): (r: seq<real>)
    requires forall p :: 0 <= p < |sims| ==> f < |sims[p]|
    ensures |r| == |sims| && forall p :: 0 <= p < |sims| ==> r[p] == sims[p][f]
  {
    seq(|sims|, p requires 0 <= p < |sims| => sims[p][f])
  }

  /** Every (person, photograph) pair at once: one pass over the qualifying faces, updating two
      tables in place. */
  method ScorePairs(sims: seq<seq<real>>, faces: seq<IndexedFace>, photos: nat, tiers: set<int>)
      returns (scores: array2<Score>, bestFace: array2<int>)
    requires forall p :: 0 <= p < |sims| ==> |sims[p]| == |faces|
    requires forall f :: 0 <= f < |faces| ==> faces[f].photo < photos
    ensures fresh(scores) && fresh(bestFace)
    ensures scores.Length0 == bestFace.Length0 == |sims| && scores.Length1 == bestFace.Length1 == photos
    ensures forall p, i: nat :: 0 <= p < |sims| && i < photos ==>
      IsBest(sims[p], faces, i, tiers, At(scores, bestFace, p, i))
  {
    scores := new Score[|sims|, photos]((p, i) => None);
    bestFace := new int[|sims|, photos]((p, i) => -1);
    var rows := Selected(faces, tiers);
    for c := 0 to |rows|
      invariant forall p, i: nat :: 0 <= p < |sims| && i < photos ==>
        At(scores, bestFace, p, i) == BestAfter(sims[p], faces, i, rows[..c])
    {
      AddFace(scores, bestFace, Column(sims, rows[c]), faces[rows[c]].photo, rows[c]);
      forall p, i: nat | 0 <= p < |sims| && i < photos
        ensures At(scores, bestFace, p, i) == BestAfter(sims[p], faces, i, rows[..c + 1])
      {
        BestAfterSnoc(sims[p], faces, i, rows, c);
      }
    }
    assert rows[..|rows|] == rows;
    forall p, i: nat | 0 <= p < |sims| && i < photos
      ensures IsBest(sims[p], faces, i, tiers, At(scores, bestFace, p, i))
    {
      BestAfterIsBest(sims[p], faces, i, tiers);
    }
  }

  // -------------------------------------------------------------------------
  // The sweep
  // -------------------------------------------------------------------------

  /** One cell of the two tables: its score, and whether the person really is in the photograph. */
  datatype Pair = Pair(score: Score, truth: bool)

  datatype SweepRow = SweepRow(threshold: real, precision: real, recall: real, f1: real, tp: nat, fp: nat, fn: int)

  predicate Predicted(p: Pair, t: real) {
    p.score.Some? && p.score.value >= t
  }

  function CountTp(pairs: seq<Pair>, t: real): (r: nat) {
    if pairs == [] then 0
    else CountTp(pairs[..|pairs| - 1], t) + if Predicted(pairs[|pairs| - 1], t) && pairs[|pairs| - 1].truth then 1 else 0
  }

  function CountFp(pairs: seq<Pair>, t: real): (r: nat) {
    if pairs == [] then 0
    else CountFp(pairs[..|pairs| - 1], t) + if Predicted(pairs[|pairs| - 1], t) && !pairs[|pairs| - 1].truth then 1 else 0
  }

  function CountTrue(pairs: seq<Pair>): (r: nat) {
    if pairs == [] then 0 else CountTrue(pairs[..|pairs| - 1]) + if pairs[|pairs| - 1].truth then 1 else 0
  }

  /** True pairs out of reach: nothing of theirs scores even `floor`. */
  function CountMissed(pairs: seq<Pair>, floor: real): (r: nat) {
    if pairs == [] then 0
    else CountMissed(pairs[..|pairs| - 1], floor) + if pairs[|pairs| - 1].truth && !Predicted(pairs[|pairs| - 1], floor) then 1 else 0
  }

  function Ratio(a: nat, b: nat, otherwise: real): (r: real)
    ensures b > 0 ==> r * b as real == a as real
  {
    if b == 0 then otherwise else a as real / b as real
  }

  function HarmonicMean(a: real, b: real): (r: real)
    ensures if a + b == 0.0 then r == 0.0 else r * (a + b) == 2.0 * a * b
  {
    if a + b == 0.0 then 0.0 else 2.0 * a * b / (a + b)
  }

  function RowAt(pairs: seq<Pair>, t: real): (r: SweepRow) {
    var tp, fp := CountTp(pairs, t), CountFp(pairs, t);
    var precision, recall := Ratio(tp, tp + fp, 1.0), Ratio(tp, CountTrue(pairs), 0.0);
    SweepRow(t, precision, recall, HarmonicMean(precision, recall), tp, fp, CountTrue(pairs) - tp)
  }

  function UnreachableRate(pairs: seq<Pair>, floor: real): (r: real) {
    Ratio(CountMissed(pairs, floor), CountTrue(pairs), 0.0)
  }

  // -------------------------------------------------------------------------
  // What a row says, in terms of the pairs
  // -------------------------------------------------------------------------

  /** Positions of the pairs in which the person really is in the photograph. */
  ghost function TrueAt(pairs: seq<Pair>): (r: set<nat>) {
    set i: nat | i < |pairs| && pairs[i].truth
  }

  ghost function FoundAt(pairs: seq<Pair>, t: real): (r: set<nat>) {
    set i: nat | i < |pairs| && pairs[i].truth && pairs[i].score.Some? && pairs[i].score.value >= t
  }

  ghost function WrongAt(pairs: seq<Pair>, t: real): (r: set<nat>) {
    set i: nat | i < |pairs| && !pairs[i].truth && pairs[i].score.Some? && pairs[i].score.value >= t
  }

  ghost function MissedAt(pairs: seq<Pair>, t: real): (r: set<nat>) {
    set i: nat | i < |pairs| && pairs[i].truth && (pairs[i].score.None? || pairs[i].score.value < t)
  }

  /** `x` is the share `part` has in `whole`, or `otherwise` when there is none of that. */
  ghost predicate IsShare(x: real, part: nat, whole: nat, otherwise: real) {
    if whole > 0 then x * whole as real == part as real else x == otherwise
  }

  /** The counts are those of the true pairs found, the wrong ones predicted and the true ones missed; recall is the
      share of the true pairs that is found, precision that of the predictions that is true, f1 their harmonic mean. */
  ghost predicate RowSays(pairs: seq<Pair>, t: real, row: SweepRow) {
    && row.threshold == t
    && row.tp == |FoundAt(pairs, t)| && row.fp == |WrongAt(pairs, t)| && row.fn == |MissedAt(pairs, t)|
    && IsShare(row.recall, |FoundAt(pairs, t)|, |TrueAt(pairs)|, 0.0)
    && IsShare(row.precision, |FoundAt(pairs, t)|, |FoundAt(pairs, t)| + |WrongAt(pairs, t)|, 1.0)
    && (if row.precision + row.recall == 0.0 then row.f1 == 0.0
        else row.f1 * (row.precision + row.recall) == 2.0 * row.precision * row.recall)
  }

  lemma OneMore(before: set<nat>, after: set<nat>, n: nat, last: bool)
    requires n !in before && forall i: nat :: i in after <==> i in before || (last && i == n)
    ensures |after| == |before| + if last then 1 else 0
  {
    assert after == before + if last then {n} else {};
  }

  lemma {:induction false} PredictionCounts(pairs: seq<Pair>, t: real)
    ensures CountTp(pairs, t) == |FoundAt(pairs, t)| && CountFp(pairs, t) == |WrongAt(pairs, t)|
    decreases |pairs|
  {
    if pairs == [] {
      assert FoundAt(pairs, t) == WrongAt(pairs, t) == {};
    } else {
      var n := |pairs| - 1;
      PredictionCounts(pairs[..n], t);
      OneMore(FoundAt(pairs[..n], t), FoundAt(pairs, t), n, Predicted(pairs[n], t) && pairs[n].truth);
      OneMore(WrongAt(pairs[..n], t), WrongAt(pairs, t), n, Predicted(pairs[n], t) && !pairs[n].truth);
    }
  }

  lemma {:induction false} TrueCounts(pairs: seq<Pair>, t: real)
    ensures CountTrue(pairs) == |TrueAt(pairs)| && CountMissed(pairs, t) == |MissedAt(pairs, t)|
    decreases |pairs|
  {
    if pairs == [] {
      assert TrueAt(pairs) == MissedAt(pairs, t) == {};
    } else {
      var n := |pairs| - 1;
      TrueCounts(pairs[..n], t);
      OneMore(TrueAt(pairs[..n]), TrueAt(pairs), n, pairs[n].truth);
      OneMore(MissedAt(pairs[..n], t), MissedAt(pairs, t), n, pairs[n].truth && !Predicted(pairs[n], t));
    }
  }

  lemma FoundOrMissed(pairs: seq<Pair>, t: real)
    ensures |TrueAt(pairs)| == |FoundAt(pairs, t)| + |MissedAt(pairs, t)|
  {
    assert TrueAt(pairs) == FoundAt(pairs, t) + MissedAt(pairs, t);
  }

  lemma RatioIs(a: nat, b: nat, otherwise: real)
    ensures IsShare(Ratio(a, b, otherwise), a, b, otherwise)
  {
  }

  lemma RowIs(pairs: seq<Pair>, t: real)
    ensures RowSays(pairs, t, RowAt(pairs, t))
  {
    PredictionCounts(pairs, t);
    TrueCounts(pairs, t);
    FoundOrMissed(pairs, t);
    RatioIs(CountTp(pairs, t), CountTp(pairs, t) + CountFp(pairs, t), 1.0);
    RatioIs(CountTp(pairs, t), CountTrue(pairs), 0.0);
  }

  /** The unreachable rate is the share of the true pairs with no score, or one below the floor. */
  lemma UnreachableIs(pairs: seq<Pair>, floor: real)
    ensures IsShare(UnreachableRate(pairs, floor), |MissedAt(pairs, floor)|, |TrueAt(pairs)|, 0.0)
  {
    TrueCounts(pairs, floor);
  }

  method Sweep(pairs: seq<Pair>, grid: seq<real>) returns (rows: seq<SweepRow>)
    ensures |rows| == |grid| && forall k :: 0 <= k < |grid| ==> rows[k] == RowAt(pairs, grid[k])
    ensures forall k :: 0 <= k < |grid| ==> RowSays(pairs, grid[k], rows[k])
  {
    rows := [];
    var positives := CountTrue(pairs);
    for k := 0 to |grid|
      invariant |rows| == k && forall l :: 0 <= l < k ==> rows[l] == RowAt(pairs, grid[l])
    {
      var t := grid[k];
      var tp := CountTp(pairs, t);
      var fp := CountFp(pairs, t);
      var fn: int := positives as int - tp as int;
      var precision := if tp + fp != 0 then tp as real / (tp + fp) as real else 1.0;
      var recall := if positives != 0 then tp as real / positives as real else 0.0;
      var f1 := if precision + recall != 0.0 then 2.0 * precision * recall / (precision + recall) else 0.0;
      rows := rows + [SweepRow(t, precision, recall, f1, tp, fp, fn)];
    }
    forall k | 0 <= k < |grid| ensures RowSays(pairs, grid[k], rows[k]) {
      RowIs(pairs, grid[k]);
    }
  }

  // -------------------------------------------------------------------------
  // What a sweep cannot do
  // -------------------------------------------------------------------------

  lemma {:induction false} CountsFall(pairs: seq<Pair>, low: real, high: real)
    requires low <= high
    ensures CountTp(pairs, high) <= CountTp(pairs, low) && CountFp(pairs, high) <= CountFp(pairs, low)
    decreases |pairs|
  {
    if pairs != [] {
      CountsFall(pairs[..|pairs| - 1], low, high);
    }
  }

  lemma RatioMonotone(a: nat, b: nat, n: nat, otherwise: real)
    requires a <= b
    ensures Ratio(a, n, otherwise) <= Ratio(b, n, otherwise)
  {
    if n > 0 {
      assert a as real / n as real <= b as real / n as real;
    }
  }

  /** Raising the threshold only takes predictions away, so recall never rises; and every true
      pair is either found or counted as missed. */
  lemma SweepFalls(pairs: seq<Pair>, low: real, high: real)
    requires low <= high
    ensures forall p :: p in pairs && Predicted(p, high) ==> Predicted(p, low)
    ensures var a, b := RowAt(pairs, low), RowAt(pairs, high);
            && b.tp <= a.tp && b.fp <= a.fp && b.recall <= a.recall
            && a.tp + a.fn == b.tp + b.fn == CountTrue(pairs) && 0 <= a.fn <= b.fn
  {
    CountsFall(pairs, low, high);
    RatioMonotone(CountTp(pairs, high), CountTp(pairs, low), CountTrue(pairs), 0.0);
    TpWithinTrue(pairs, low);
  }

  lemma {:induction false} TpWithinTrue(pairs: seq<Pair>, t: real)
    ensures CountTp(pairs, t) <= CountTrue(pairs)
    decreases |pairs|
  {
    if pairs != [] {
      TpWithinTrue(pairs[..|pairs| - 1], t);
    }
  }

  lemma {:induction false} TpOrMissed(pairs: seq<Pair>, t: real, floor: real)
    requires floor <= t
    ensures CountTp(pairs, t) + CountMissed(pairs, floor) <= CountTrue(pairs)
    decreases |pairs|
  {
    if pairs != [] {
      TpOrMissed(pairs[..|pairs| - 1], t, floor);
    }
  }

  /** From the floor up, recall cannot pass one minus the unreachable rate. */
  lemma RecallCeiling(pairs: seq<Pair>, t: real, floor: real)
    requires floor <= t
    ensures RowAt(pairs, t).recall <= 1.0 - UnreachableRate(pairs, floor)
  {
    TpOrMissed(pairs, t, floor);
    RatiosWithinOne(CountTp(pairs, t), CountMissed(pairs, floor), CountTrue(pairs));
  }

  lemma RatiosWithinOne(x: nat, y: nat, n: nat)
    requires x + y <= n
    ensures Ratio(x, n, 0.0) + Ratio(y, n, 0.0) <= 1.0
  {
    if n > 0 {
      SharesWithinOne(Ratio(x, n, 0.0), Ratio(y, n, 0.0), n as real, x as real, y as real);
    }
  }

  lemma SharesWithinOne(a: real, b: real, n: real, x: real, y: real)
    requires n > 0.0 && a * n == x && b * n == y && x + y <= n
    ensures a + b <= 1.0
  {
    assert (1.0 - (a + b)) * n == n - x - y;
  }

  ghost predicate Below(a: Score, b: Score) {
    a.None? || (b.Some? && a.value <= b.value)
  }

  /** Two scorings of the same pairs, one under a larger set of tiers. */
  ghost predicate Dominated(few: seq<Pair>, many: seq<Pair>) {
    |few| == |many| && forall k :: 0 <= k < |few| ==> few[k].truth == many[k].truth && Below(few[k].score, many[k].score)
  }

  lemma {:induction false} DominatedCounts(few: seq<Pair>, many: seq<Pair>, t: real)
    requires Dominated(few, many)
    ensures CountTp(few, t) <= CountTp(many, t) && CountFp(few, t) <= CountFp(many, t)
    ensures CountTrue(few) == CountTrue(many)
    decreases |few|
  {
    if few != [] {
      var n := |few| - 1;
      assert Below(few[n].score, many[n].score);
      DominatedCounts(few[..n], many[..n], t);
    }
  }

  /** Letting more tiers contribute never lowers a score, so no count at any threshold falls. */
  lemma MoreTiersDominate(sims: seq<real>, faces: seq<IndexedFace>, photo: PhotoId, few: set<int>, many: set<int>, a: Best, b: Best)
    requires |sims| == |faces| && few <= many
    requires IsBest(sims, faces, photo, few, a) && IsBest(sims, faces, photo, many, b)
    ensures Below(a.score, b.score)
  {
    if a.score.Some? {
      assert Qualifies(faces, photo, many, a.face);
    }
  }
}
