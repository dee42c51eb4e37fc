/** How the measured thresholds and the ranking that applies them agree. */
module RankingFacts {
  import opened Wrappers
  import opened Scoring
  import opened Ranking

  /** The same faces as the evaluation sees them. */
  function Faces(rows: seq<FaceRow>): (r: seq<IndexedFace>)
    ensures |r| == |rows| && forall i :: 0 <= i < |rows| ==> r[i] == IndexedFace(rows[i].photo, rows[i].tier)
  {
    seq(|rows|, i requires 0 <= i < |rows| => IndexedFace(rows[i].photo, rows[i].tier))
  }

  function Similarities(rows: seq<FaceRow>): (r: seq<real>)
    ensures |r| == |rows| && forall i :: 0 <= i < |rows| ==> r[i] == rows[i].similarity
  {
    seq(|rows|, i requires 0 <= i < |rows| => rows[i].similarity)
  }

  const ALL_TIERS := {1, 2}
  const CONFIDENT_TIERS := {2}

  ghost predicate PredictedAt(score: Score, t: real) {
    score.Some? && score.value >= t
  }

  /** When the best face of a photograph passes the low threshold, ranking picks that very face. */
  lemma SameBestFace(rows: seq<FaceRow>, t: Thresholds, photo: PhotoId, b: Best, i: nat)
    requires t.low <= t.high && forall k :: 0 <= k < |rows| ==> rows[k].tier in ALL_TIERS
    requires IsBest(Similarities(rows), Faces(rows), photo, ALL_TIERS, b)
    requires FirstTop(rows, t, photo, i, |rows|)
    ensures b.score.Some? && b.face == i && b.score.value == rows[i].similarity >= t.low
  {
    assert Qualifies(Faces(rows), photo, ALL_TIERS, i);
    assert KeptRow(rows, t, photo, b.face);
  }

  lemma ListedIffKept(rows: seq<FaceRow>, t: Thresholds, confident: seq<Match>, maybe: seq<Match>, photo: PhotoId)
    requires IsRanking(rows, t, confident, maybe)
    ensures Listed(confident, photo) || Listed(maybe, photo) <==> exists i: nat :: FirstTop(rows, t, photo, i, |rows|)
  {
    if Listed(confident, photo) {
      var k :| 0 <= k < |confident| && confident[k].photo == photo;
      assert RightMatch(rows, t, confident[k]);
    }
    if Listed(maybe, photo) {
      var k :| 0 <= k < |maybe| && maybe[k].photo == photo;
      assert RightMatch(rows, t, maybe[k]);
    }
  }

  /** A listed photograph is confident exactly when its first best face is. */
  lemma ConfidentIff(rows: seq<FaceRow>, t: Thresholds, confident: seq<Match>, maybe: seq<Match>, photo: PhotoId, i: nat)
    requires IsRanking(rows, t, confident, maybe) && FirstTop(rows, t, photo, i, |rows|)
    ensures Listed(confident, photo) <==> BucketOf(rows[i].similarity, rows[i].tier, t) == Confident
  {
    if Listed(confident, photo) {
      var k :| 0 <= k < |confident| && confident[k].photo == photo;
      assert RightMatch(rows, t, confident[k]);
      var j: nat :| FirstTop(rows, t, photo, j, |rows|) && confident[k] == MatchOf(rows, t, Entry(j, KeptCount(rows, t, photo, |rows|)));
      OneTop(rows, t, photo, i, j, |rows|);
    } else {
      ListedIffKept(rows, t, confident, maybe, photo);
      var k :| 0 <= k < |maybe| && maybe[k].photo == photo;
      assert RightMatch(rows, t, maybe[k]);
      var j: nat :| FirstTop(rows, t, photo, j, |rows|) && maybe[k] == MatchOf(rows, t, Entry(j, KeptCount(rows, t, photo, |rows|)));
      OneTop(rows, t, photo, i, j, |rows|);
    }
  }

  lemma OneTop(rows: seq<FaceRow>, t: Thresholds, photo: PhotoId, i: nat, j: nat, n: nat)
    requires FirstTop(rows, t, photo, i, n) && FirstTop(rows, t, photo, j, n)
    ensures i == j
  {
    assert KeptRow(rows, t, photo, i) && KeptRow(rows, t, photo, j);
  }

  /** For the same faces and thresholds with low <= high: the two lists together are what the
      all-tier sweep predicts at the low threshold, and the confident list is what the tier-2 sweep
      predicts at the high one, minus exactly the photographs whose first best face is tier 1. */
  lemma RankingMeetsSweeps(rows: seq<FaceRow>, t: Thresholds, confident: seq<Match>, maybe: seq<Match>,
                           photo: PhotoId, all: Best, tierTwo: Best)
    requires t.low <= t.high && forall k :: 0 <= k < |rows| ==> rows[k].tier in ALL_TIERS
    requires IsRanking(rows, t, confident, maybe)
    requires IsBest(Similarities(rows), Faces(rows), photo, ALL_TIERS, all)
    requires IsBest(Similarities(rows), Faces(rows), photo, CONFIDENT_TIERS, tierTwo)
    ensures Listed(confident, photo) || Listed(maybe, photo) <==> PredictedAt(all.score, t.low)
    ensures Listed(confident, photo) <==> PredictedAt(tierTwo.score, t.high) && rows[all.face].tier != 1
  {
    ListedIffKept(rows, t, confident, maybe, photo);
    if tierTwo.score.Some? {
      assert Qualifies(Faces(rows), photo, ALL_TIERS, tierTwo.face);
    }
    if i: nat :| FirstTop(rows, t, photo, i, |rows|) {
      SameBestFace(rows, t, photo, all, i);
      ConfidentIff(rows, t, confident, maybe, photo, i);
      if rows[i].tier == 2 {
        assert Qualifies(Faces(rows), photo, CONFIDENT_TIERS, i);
      }
    } else if PredictedAt(all.score, t.low) {
      BestIsFirstTop(rows, t, photo, all);
    }
  }

  lemma BestIsFirstTop(rows: seq<FaceRow>, t: Thresholds, photo: PhotoId, b: Best)
    requires t.low <= t.high && forall k :: 0 <= k < |rows| ==> rows[k].tier in ALL_TIERS
    requires IsBest(Similarities(rows), Faces(rows), photo, ALL_TIERS, b) && PredictedAt(b.score, t.low)
    ensures 0 <= b.face && FirstTop(rows, t, photo, b.face, |rows|)
  {
    forall k | KeptRow(rows, t, photo, k) ensures Qualifies(Faces(rows), photo, ALL_TIERS, k) {
    }
  }

  /** Prominence reorders near-ties only: in neither list is a match behind another that scores more than
      the boost below it. */
  lemma BoostOnlyReordersNearTies(rows: seq<FaceRow>, t: Thresholds, confident: seq<Match>, maybe: seq<Match>)
    requires IsRanking(rows, t, confident, maybe)
    requires forall i :: 0 <= i < |rows| ==> Sensible(rows[i].geometry)
    ensures NearlyByScore(confident) && NearlyByScore(maybe)
  {
    forall a: nat, b: nat | a < b < |confident| ensures confident[a].score >= confident[b].score - MAX_BOOST {
      NearTie(rows, t, confident[a], confident[b]);
    }
    forall a: nat, b: nat | a < b < |maybe| ensures maybe[a].score >= maybe[b].score - MAX_BOOST {
      NearTie(rows, t, maybe[a], maybe[b]);
    }
  }

  ghost predicate NearlyByScore(s: seq<Match>) {
    forall a, b :: 0 <= a < b < |s| ==> s[a].score >= s[b].score - MAX_BOOST
  }

  lemma NearTie(rows: seq<FaceRow>, t: Thresholds, m: Match, n: Match)
    requires RightMatch(rows, t, m) && RightMatch(rows, t, n) && m.rankScore >= n.rankScore
    requires forall i :: 0 <= i < |rows| ==> Sensible(rows[i].geometry)
    ensures m.score >= n.score - MAX_BOOST
  {
    var i: nat :| FirstTop(rows, t, m.photo, i, |rows|) && m == MatchOf(rows, t, Entry(i, KeptCount(rows, t, m.photo, |rows|)));
    var j: nat :| FirstTop(rows, t, n.photo, j, |rows|) && n == MatchOf(rows, t, Entry(j, KeptCount(rows, t, n.photo, |rows|)));
    BoostIsSmall(rows[i].geometry);
    BoostIsSmall(rows[j].geometry);
  }
}
