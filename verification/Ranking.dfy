/** Production ranking: from scored faces to the two lists an attendee sees. */
module Ranking {
  import opened Scoring

  datatype Bucket = Confident | Maybe | Reject

  /** Size and place of a face in its photograph; `height` 0 stands for null. */
  datatype Geometry = Geometry(faceHeight: real, height: real, width: real, centrality: real)

  datatype FaceRow = FaceRow(face: string, photo: PhotoId, similarity: real, tier: int, geometry: Geometry)

  datatype Match = Match(photo: PhotoId, face: string, score: real, bucket: Bucket, faceMatches: nat, rankScore: real)

  datatype Thresholds = Thresholds(high: real, low: real)

  function BucketOf(similarity: real, tier: int, t: Thresholds): (b: Bucket) {
    if similarity >= t.high && tier >= 2 then Confident
    else if similarity >= t.low then Maybe
    else Reject
  }

  const MAX_BOOST := 0.05

  function Min(a: real, b: real): real { if a <= b then a else b }

  /** Ordering only.  Centrality is taken as given, between 0 and 1. */
  function ProminenceBoost(g: Geometry): (r: real) {
    if g.width == 0.0 || g.height == 0.0 then 0.0
    else
      var size := Min(g.faceHeight / g.height, 0.33) / 0.33;
      0.05 * (0.6 * size + 0.4 * g.centrality)
  }

  ghost predicate Sensible(g: Geometry) {
    g.faceHeight >= 0.0 && g.height >= 0.0 && 0.0 <= g.centrality <= 1.0
  }

  lemma BoostIsSmall(g: Geometry)
    requires Sensible(g)
    ensures 0.0 <= ProminenceBoost(g) <= MAX_BOOST
  {
    if g.width != 0.0 && g.height != 0.0 {
      assert g.faceHeight / g.height >= 0.0;
    }
  }

  /** The share of the photograph's height the face takes, up to a third. */
  function Size(g: Geometry): (r: real)
    requires g.height != 0.0
  {
    Min(g.faceHeight / g.height, 0.33)
  }

  /** Both photographs have their measures, and the first face is at least as large and as central as the second,
      and more of one. */
  ghost predicate Outshines(g: Geometry, h: Geometry) {
    && g.width != 0.0 && g.height != 0.0 && h.width != 0.0 && h.height != 0.0
    && Size(g) >= Size(h) && g.centrality >= h.centrality
    && (Size(g) > Size(h) || g.centrality > h.centrality)
  }

  /** The boost rises with the face's size and with its centrality, and there is none without the measures. */
  lemma BoostRises(g: Geometry, h: Geometry)
    ensures Outshines(g, h) ==> ProminenceBoost(g) > ProminenceBoost(h)
    ensures g.width == 0.0 || g.height == 0.0 ==> ProminenceBoost(g) == 0.0
  {
    if Outshines(g, h) {
      SizeWeighs(Size(g), Size(h));
    }
  }

  lemma SizeWeighs(a: real, b: real)
    ensures a >= b ==> a / 0.33 >= b / 0.33
    ensures a > b ==> a / 0.33 > b / 0.33
  {
  }

  // -------------------------------------------------------------------------
  // Grouping by photograph
  // -------------------------------------------------------------------------

  predicate Kept(r: FaceRow, t: Thresholds) {
    BucketOf(r.similarity, r.tier, t) != Reject
  }

  /** The map entry of a photograph: its first best kept row, and how many kept rows it has. */
  datatype Entry = Entry(row: nat, count: nat)

  ghost predicate KeptRow(rows: seq<FaceRow>, t: Thresholds, photo: PhotoId, i: int) {
    0 <= i < |rows| && rows[i].photo == photo && Kept(rows[i], t)
  }

  function KeptCount(rows: seq<FaceRow>, t: Thresholds, photo: PhotoId, n: nat): (r: nat)
    requires n <= |rows|
  {
    if n == 0 then 0
    else KeptCount(rows, t, photo, n - 1) + if rows[n - 1].photo == photo && Kept(rows[n - 1], t) then 1 else 0
  }

  /** Among the first `n` rows: `i` is kept, none scores higher, and none before it as high. */
  ghost predicate FirstTop(rows: seq<FaceRow>, t: Thresholds, photo: PhotoId, i: nat, n: nat) {
    && i < n <= |rows| && KeptRow(rows, t, photo, i)
    && (forall k :: 0 <= k < n && KeptRow(rows, t, photo, k) ==> rows[k].similarity <= rows[i].similarity)
    && (forall k :: 0 <= k < i && KeptRow(rows, t, photo, k) ==> rows[k].similarity < rows[i].similarity)
  }

  /** A row of another photograph, or a rejected one, changes nothing for this one. */
  lemma TopUnmoved(rows: seq<FaceRow>, t: Thresholds, photo: PhotoId, i: nat, n: nat)
    requires n < |rows| && FirstTop(rows, t, photo, i, n) && !KeptRow(rows, t, photo, n)
    ensures FirstTop(rows, t, photo, i, n + 1) && KeptCount(rows, t, photo, n + 1) == KeptCount(rows, t, photo, n)
  {
  }

  lemma TopMoved(rows: seq<FaceRow>, t: Thresholds, photo: PhotoId, i: nat, n: nat)
    requires n < |rows| && FirstTop(rows, t, photo, i, n) && KeptRow(rows, t, photo, n)
    ensures FirstTop(rows, t, photo, if rows[n].similarity > rows[i].similarity then n else i, n + 1)
    ensures KeptCount(rows, t, photo, n + 1) == KeptCount(rows, t, photo, n) + 1
  {
  }

  lemma TopFound(rows: seq<FaceRow>, t: Thresholds, photo: PhotoId, n: nat)
    requires n < |rows| && KeptRow(rows, t, photo, n) && forall k :: 0 <= k < n ==> !KeptRow(rows, t, photo, k)
    ensures FirstTop(rows, t, photo, n, n + 1) && KeptCount(rows, t, photo, n + 1) == 1
  {
    NoneKept(rows, t, photo, n);
  }

  ghost predicate RightEntries(rows: seq<FaceRow>, t: Thresholds, best: map<PhotoId, Entry>, n: nat) {
    && n <= |rows|
    && (forall p :: p in best ==> FirstTop(rows, t, p, best[p].row, n) && best[p].count == KeptCount(rows, t, p, n))
    && (forall i :: 0 <= i < n && Kept(rows[i], t) ==> rows[i].photo in best)
  }

  function NextBest(rows: seq<FaceRow>, t: Thresholds, best: map<PhotoId, Entry>, n: nat): (r: map<PhotoId, Entry>)
    requires n < |rows| && forall p :: p in best ==> best[p].row < |rows|
  {
    var p := rows[n].photo;
    if !Kept(rows[n], t) then best
    else if p !in best then best[p := Entry(n, 1)]
    else best[p := Entry(if rows[n].similarity > rows[best[p].row].similarity then n else best[p].row, best[p].count + 1)]
  }

  lemma EntriesStep(rows: seq<FaceRow>, t: Thresholds, best: map<PhotoId, Entry>, n: nat)
    requires n < |rows| && RightEntries(rows, t, best, n)
    ensures RightEntries(rows, t, NextBest(rows, t, best, n), n + 1)
  {
    var next := NextBest(rows, t, best, n);
    forall p | p in next ensures FirstTop(rows, t, p, next[p].row, n + 1) && next[p].count == KeptCount(rows, t, p, n + 1) {
      if !KeptRow(rows, t, p, n) {
        TopUnmoved(rows, t, p, best[p].row, n);
      } else if p in best {
        TopMoved(rows, t, p, best[p].row, n);
      } else {
        TopFound(rows, t, p, n);
      }
    }
  }

  /** The map's keys in the order they were added. */
  ghost predicate OrderOf(best: map<PhotoId, Entry>, order: seq<PhotoId>) {
    && (forall p :: p in best <==> p in order)
    && (forall a, b :: 0 <= a < b < |order| ==> order[a] != order[b])
  }

  function NextOrder(rows: seq<FaceRow>, t: Thresholds, best: map<PhotoId, Entry>, order: seq<PhotoId>, n: nat): (r: seq<PhotoId>)
    requires n < |rows|
  {
    if Kept(rows[n], t) && rows[n].photo !in best then order + [rows[n].photo] else order
  }

  lemma OrderStep(rows: seq<FaceRow>, t: Thresholds, best: map<PhotoId, Entry>, order: seq<PhotoId>, n: nat)
    requires n < |rows| && (forall p :: p in best ==> best[p].row < |rows|) && OrderOf(best, order)
    ensures OrderOf(NextBest(rows, t, best, n), NextOrder(rows, t, best, order, n))
  {
  }

  /** The body of the grouping loop. */
  method AddRow(rows: seq<FaceRow>, t: Thresholds, n: nat, best0: map<PhotoId, Entry>, order0: seq<PhotoId>)
      returns (best: map<PhotoId, Entry>, order: seq<PhotoId>)
    requires n < |rows| && forall p :: p in best0 ==> best0[p].row < |rows|
    ensures best == NextBest(rows, t, best0, n) && order == NextOrder(rows, t, best0, order0, n)
  {
    best, order := best0, order0;
    var row := rows[n];
    if BucketOf(row.similarity, row.tier, t) == Reject {
      return;
    }
    if row.photo !in best {
      best := best[row.photo := Entry(n, 1)];
      order := order + [row.photo];
    } else {
      var existing := best[row.photo];
      existing := existing.(count := existing.count + 1);
      if row.similarity > rows[existing.row].similarity {
        existing := existing.(row := n);
      }
      best := best[row.photo := existing];
    }
  }

  /** The grouping loop: a map, and the order its keys were added in. */
  method Group(rows: seq<FaceRow>, t: Thresholds) returns (best: map<PhotoId, Entry>, order: seq<PhotoId>)
    ensures RightEntries(rows, t, best, |rows|)
    ensures OrderOf(best, order)
  {
    best, order := map[], [];
    for n := 0 to |rows|
      invariant RightEntries(rows, t, best, n)
      invariant OrderOf(best, order)
    {
      EntriesStep(rows, t, best, n);
      OrderStep(rows, t, best, order, n);
      best, order := AddRow(rows, t, n, best, order);
    }
  }

  lemma {:induction false} NoneKept(rows: seq<FaceRow>, t: Thresholds, photo: PhotoId, n: nat)
    requires n <= |rows| && forall i :: 0 <= i < n ==> !KeptRow(rows, t, photo, i)
    ensures KeptCount(rows, t, photo, n) == 0
  {
    if n > 0 {
      NoneKept(rows, t, photo, n - 1);
      assert !KeptRow(rows, t, photo, n - 1);
    }
  }

  // -------------------------------------------------------------------------
  // Sorting
  // -------------------------------------------------------------------------

  ghost predicate SortedByRank(s: seq<Match>) {
    forall a, b :: 0 <= a < b < |s| ==> s[a].rankScore >= s[b].rankScore
  }

  /** Stable insertion: behind every element that ranks at least as high. */
  function Insert(s: seq<Match>, m: Match): (r: seq<Match>)
    ensures multiset(r) == multiset(s) + multiset{m}
  {
    if s == [] || s[0].rankScore < m.rankScore then [m] + s
    else
      assert s == [s[0]] + s[1..];
      [s[0]] + Insert(s[1..], m)
  }

  lemma {:induction false} InsertSorted(s: seq<Match>, m: Match)
    requires SortedByRank(s)
    ensures SortedByRank(Insert(s, m))
  {
    if s != [] && s[0].rankScore >= m.rankScore {
      InsertSorted(s[1..], m);
      var r := Insert(s[1..], m);
      forall k | 0 <= k < |r| ensures s[0].rankScore >= r[k].rankScore {
        assert r[k] in multiset(r);
        assert r[k] == m || r[k] in s[1..];
      }
    }
  }

  function SortByRank(s: seq<Match>): (r: seq<Match>)
    ensures multiset(r) == multiset(s)
  {
    if s == [] then []
    else
      assert s == s[..|s| - 1] + [s[|s| - 1]];
      Insert(SortByRank(s[..|s| - 1]), s[|s| - 1])
  }

  lemma {:induction false} SortByRankSorts(s: seq<Match>)
    ensures SortedByRank(SortByRank(s))
    decreases |s|
  {
    if s != [] {
      SortByRankSorts(s[..|s| - 1]);
      InsertSorted(SortByRank(s[..|s| - 1]), s[|s| - 1]);
    }
  }

  // -------------------------------------------------------------------------
  // rank
  // -------------------------------------------------------------------------

  /** The list entry of a photograph. */
  function MatchOf(rows: seq<FaceRow>, t: Thresholds, e: Entry): (m: Match)
    requires e.row < |rows|
  {
    var r := rows[e.row];
    Match(r.photo, r.face, r.similarity, BucketOf(r.similarity, r.tier, t), e.count, r.similarity + ProminenceBoost(r.geometry))
  }

  /** `m` is the right entry for its photograph. */
  ghost predicate RightMatch(rows: seq<FaceRow>, t: Thresholds, m: Match) {
    exists i: nat :: FirstTop(rows, t, m.photo, i, |rows|) && m == MatchOf(rows, t, Entry(i, KeptCount(rows, t, m.photo, |rows|)))
  }

  ghost predicate DistinctPhotos(s: seq<Match>) {
    forall a, b :: 0 <= a < b < |s| ==> s[a].photo != s[b].photo
  }

  /** The two lists: every photograph with a kept face exactly once, in the list of its first best
      face's bucket, and each list by rank. */
  ghost predicate IsRanking(rows: seq<FaceRow>, t: Thresholds, confident: seq<Match>, maybe: seq<Match>) {
    && (forall m :: m in confident ==> RightMatch(rows, t, m) && m.bucket == Confident)
    && (forall m :: m in maybe ==> RightMatch(rows, t, m) && m.bucket == Maybe)
    && (forall i :: 0 <= i < |rows| && Kept(rows[i], t) ==> Listed(confident, rows[i].photo) || Listed(maybe, rows[i].photo))
    && DistinctPhotos(confident) && DistinctPhotos(maybe)
    && (forall p :: !(Listed(confident, p) && Listed(maybe, p)))
    && SortedByRank(confident) && SortedByRank(maybe)
  }

  ghost predicate Listed(s: seq<Match>, photo: PhotoId) {
    exists k :: 0 <= k < |s| && s[k].photo == photo
  }

  /** One list after the first `n` photographs. */
  ghost predicate PartOf(rows: seq<FaceRow>, t: Thresholds, order: seq<PhotoId>, n: nat, list: seq<Match>, bucket: Bucket)
    requires n <= |order|
  {
    && (forall m :: m in list ==> RightMatch(rows, t, m) && m.bucket == bucket && m.photo in order[..n])
    && DistinctPhotos(list)
  }

  /** Splitting the groups into the two lists, in insertion order. */
  ghost predicate Split(rows: seq<FaceRow>, t: Thresholds, order: seq<PhotoId>, n: nat, confident: seq<Match>, maybe: seq<Match>) {
    && n <= |order|
    && PartOf(rows, t, order, n, confident, Confident) && PartOf(rows, t, order, n, maybe, Maybe)
    && (forall k :: 0 <= k < n ==> Listed(confident, order[k]) || Listed(maybe, order[k]))
    && (forall p :: !(Listed(confident, p) && Listed(maybe, p)))
  }

  lemma {:induction false} Unsplit(rows: seq<FaceRow>, t: Thresholds, order: seq<PhotoId>, confident: seq<Match>, maybe: seq<Match>)
    requires Split(rows, t, order, |order|, confident, maybe)
    requires forall i :: 0 <= i < |rows| && Kept(rows[i], t) ==> rows[i].photo in order
    ensures IsRanking(rows, t, SortByRank(confident), SortByRank(maybe))
  {
    SortByRankSorts(confident);
    SortByRankSorts(maybe);
    SamePhotos(confident, SortByRank(confident));
    SamePhotos(maybe, SortByRank(maybe));
    forall i | 0 <= i < |rows| && Kept(rows[i], t)
      ensures Listed(SortByRank(confident), rows[i].photo) || Listed(SortByRank(maybe), rows[i].photo)
    {
      var k :| 0 <= k < |order| && order[k] == rows[i].photo;
      assert Listed(confident, order[k]) || Listed(maybe, order[k]);
    }
  }

  /** Reordering keeps which photographs are listed, and keeps them distinct. */
  lemma SamePhotos(a: seq<Match>, b: seq<Match>)
    requires multiset(a) == multiset(b)
    ensures forall m :: m in a <==> m in b
    ensures forall p :: Listed(a, p) <==> Listed(b, p)
    ensures DistinctPhotos(a) ==> DistinctPhotos(b)
  {
    forall m ensures m in a <==> m in b {
      assert m in multiset(a) <==> m in multiset(b);
    }
    forall p ensures Listed(a, p) <==> Listed(b, p) {
      if Listed(a, p) {
        var k :| 0 <= k < |a| && a[k].photo == p;
        assert a[k] in b;
      }
      if Listed(b, p) {
        var k :| 0 <= k < |b| && b[k].photo == p;
        assert b[k] in a;
      }
    }
    if DistinctPhotos(a) {
      forall i, j | 0 <= i < j < |b| ensures b[i].photo != b[j].photo {
        ListedOnce(a, b, i, j);
      }
    }
  }

  lemma ListedOnce(a: seq<Match>, b: seq<Match>, i: nat, j: nat)
    requires multiset(a) == multiset(b) && DistinctPhotos(a) && i < j < |b|
    ensures b[i].photo != b[j].photo
  {
    assert b[i] in multiset(a) && b[j] in multiset(a);
    var k :| 0 <= k < |a| && a[k] == b[i];
    var l :| 0 <= l < |a| && a[l] == b[j];
    CountOnce(a, k);
    if b[i] == b[j] {
      CountTwice(b, i, j);
    }
  }

  lemma CountTwice(b: seq<Match>, i: nat, j: nat)
    requires i < j < |b| && b[i] == b[j]
    ensures multiset(b)[b[i]] >= 2
  {
    assert b == b[..j] + [b[j]] + b[j + 1..];
    assert b[i] in b[..j];
  }

  lemma CountOnce(a: seq<Match>, k: nat)
    requires DistinctPhotos(a) && k < |a|
    ensures multiset(a)[a[k]] == 1
  {
    assert a == a[..k] + [a[k]] + a[k + 1..];
    assert a[k] !in a[..k] && a[k] !in a[k + 1..];
  }

  lemma PartWithout(rows: seq<FaceRow>, t: Thresholds, order: seq<PhotoId>, n: nat, list: seq<Match>, bucket: Bucket)
    requires n < |order| && PartOf(rows, t, order, n, list, bucket)
    requires forall a, b :: 0 <= a < b < |order| ==> order[a] != order[b]
    ensures PartOf(rows, t, order, n + 1, list, bucket) && !Listed(list, order[n])
  {
    assert order[..n + 1] == order[..n] + [order[n]];
    assert order[n] !in order[..n];
  }

  lemma PartWith(rows: seq<FaceRow>, t: Thresholds, order: seq<PhotoId>, n: nat, list: seq<Match>, m: Match)
    requires n < |order| && PartOf(rows, t, order, n, list, m.bucket)
    requires forall a, b :: 0 <= a < b < |order| ==> order[a] != order[b]
    requires RightMatch(rows, t, m) && m.photo == order[n]
    ensures PartOf(rows, t, order, n + 1, list + [m], m.bucket)
    ensures forall p :: Listed(list + [m], p) <==> Listed(list, p) || p == m.photo
  {
    PartWithout(rows, t, order, n, list, m.bucket);
    assert order[..n + 1][n] == m.photo;
    forall p ensures Listed(list + [m], p) <==> Listed(list, p) || p == m.photo {
      ListedSnoc(list, m, p);
    }
  }

  /** Adding one photograph's entry to its list. */
  lemma SplitStep(rows: seq<FaceRow>, t: Thresholds, order: seq<PhotoId>, n: nat, confident: seq<Match>, maybe: seq<Match>, m: Match)
    requires Split(rows, t, order, n, confident, maybe) && n < |order|
    requires forall a, b :: 0 <= a < b < |order| ==> order[a] != order[b]
    requires RightMatch(rows, t, m) && m.photo == order[n] && m.bucket != Reject
    ensures if m.bucket == Confident then Split(rows, t, order, n + 1, confident + [m], maybe)
            else Split(rows, t, order, n + 1, confident, maybe + [m])
  {
    PartWithout(rows, t, order, n, confident, Confident);
    PartWithout(rows, t, order, n, maybe, Maybe);
    if m.bucket == Confident {
      PartWith(rows, t, order, n, confident, m);
    } else {
      PartWith(rows, t, order, n, maybe, m);
    }
  }

  lemma ListedSnoc(s: seq<Match>, m: Match, p: PhotoId)
    ensures Listed(s + [m], p) <==> Listed(s, p) || p == m.photo
  {
    if Listed(s, p) {
      var k :| 0 <= k < |s| && s[k].photo == p;
      assert (s + [m])[k].photo == p;
    }
    if p == m.photo {
      assert (s + [m])[|s|].photo == p;
    }
  }

  // -------------------------------------------------------------------------
  // What an entry counts, and what decides between equal scores
  // -------------------------------------------------------------------------

  /** The faces of a photograph that reach a threshold among the first `n` rows. */
  ghost function Reaching(rows: seq<FaceRow>, t: Thresholds, photo: PhotoId, n: nat): (r: set<nat>) {
    set i: nat | i < n && i < |rows| && rows[i].photo == photo
      && (rows[i].similarity >= t.low || (rows[i].similarity >= t.high && rows[i].tier >= 2))
  }

  lemma {:induction false} KeptCountIs(rows: seq<FaceRow>, t: Thresholds, photo: PhotoId, n: nat)
    requires n <= |rows|
    ensures KeptCount(rows, t, photo, n) == |Reaching(rows, t, photo, n)|
  {
    if n == 0 {
      assert Reaching(rows, t, photo, n) == {};
    } else {
      KeptCountIs(rows, t, photo, n - 1);
      assert Reaching(rows, t, photo, n)
          == Reaching(rows, t, photo, n - 1) + if rows[n - 1].photo == photo && Kept(rows[n - 1], t) then {n - 1} else {};
    }
  }

  /** Each entry counts its photograph's faces that reach a threshold. */
  ghost predicate CountsReaching(rows: seq<FaceRow>, t: Thresholds, list: seq<Match>) {
    forall m :: m in list ==> m.faceMatches == |Reaching(rows, t, m.photo, |rows|)|
  }

  lemma RightCounts(rows: seq<FaceRow>, t: Thresholds, list: seq<Match>)
    requires forall m :: m in list ==> RightMatch(rows, t, m)
    ensures CountsReaching(rows, t, list)
  {
    forall m | m in list ensures m.faceMatches == |Reaching(rows, t, m.photo, |rows|)| {
      KeptCountIs(rows, t, m.photo, |rows|);
    }
  }

  lemma SameFirstTop(rows: seq<FaceRow>, t: Thresholds, photo: PhotoId, i: nat, j: nat, n: nat)
    requires FirstTop(rows, t, photo, i, n) && FirstTop(rows, t, photo, j, n)
    ensures i == j
  {
  }

  /** Of two photographs whose best faces score the same, the one before is never outshone by the one behind it. */
  lemma EqualScores(rows: seq<FaceRow>, t: Thresholds, list: seq<Match>, a: nat, b: nat, i: nat, j: nat)
    requires (forall m :: m in list ==> RightMatch(rows, t, m)) && SortedByRank(list)
    requires a < b < |list| && list[a].score == list[b].score
    requires FirstTop(rows, t, list[a].photo, i, |rows|) && FirstTop(rows, t, list[b].photo, j, |rows|)
    ensures !Outshines(rows[j].geometry, rows[i].geometry)
  {
    RankOf(rows, t, list[a], i);
    RankOf(rows, t, list[b], j);
    BoostRises(rows[j].geometry, rows[i].geometry);
  }

  lemma RankOf(rows: seq<FaceRow>, t: Thresholds, m: Match, i: nat)
    requires RightMatch(rows, t, m) && FirstTop(rows, t, m.photo, i, |rows|)
    ensures m.rankScore == m.score + ProminenceBoost(rows[i].geometry)
  {
    var j: nat :| FirstTop(rows, t, m.photo, j, |rows|) && m == MatchOf(rows, t, Entry(j, KeptCount(rows, t, m.photo, |rows|)));
    SameFirstTop(rows, t, m.photo, i, j, |rows|);
  }

  method Rank(rows: seq<FaceRow>, t: Thresholds) returns (confident: seq<Match>, maybe: seq<Match>)
    ensures IsRanking(rows, t, confident, maybe)
    ensures CountsReaching(rows, t, confident) && CountsReaching(rows, t, maybe)
  {
    var best, order := Group(rows, t);
    confident, maybe := [], [];
    for n := 0 to |order|
      invariant Split(rows, t, order, n, confident, maybe)
    {
      var p := order[n];
      assert p in best;
      var m := MatchOf(rows, t, best[p]);
      assert FirstTop(rows, t, p, best[p].row, |rows|) && RightMatch(rows, t, m);
      SplitStep(rows, t, order, n, confident, maybe, m);
      if m.bucket == Confident {
        confident := confident + [m];
      } else {
        maybe := maybe + [m];
      }
    }
    Unsplit(rows, t, order, confident, maybe);
    confident := SortByRank(confident);
    maybe := SortByRank(maybe);
    RightCounts(rows, t, confident);
    RightCounts(rows, t, maybe);
  }
}
