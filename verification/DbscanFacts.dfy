/** What a clustering determines: it is unique, and at two samples it is the partition into
    connected components. */
module DbscanFacts {
  import opened Dbscan

  // -------------------------------------------------------------------------
  // Uniqueness
  // -------------------------------------------------------------------------

  lemma {:induction false} CoreLabelsAgree(g: Graph, a: Labels, b: Labels, i: int)
    requires g.Valid() && IsClustering(g, a) && IsClustering(g, b)
    requires g.Row(i) && g.core[i]
    ensures a[i] == b[i]
    decreases i
  {
    if a[i] < b[i] {
      assert SeenBefore(g, b, i, a[i]);
      var j :| 0 <= j < i && g.core[j] && b[j] == a[i];
      CoreLabelsAgree(g, a, b, j);
      assert false;
    } else if b[i] < a[i] {
      assert SeenBefore(g, a, i, b[i]);
      var j :| 0 <= j < i && g.core[j] && a[j] == b[i];
      CoreLabelsAgree(g, a, b, j);
      assert false;
    }
  }

  /** The description has one solution. */
  lemma Canonical(g: Graph, a: Labels, b: Labels)
    requires g.Valid() && IsClustering(g, a) && IsClustering(g, b)
    ensures a == b
  {
    forall i | 0 <= i < |a| ensures a[i] == b[i] {
      if g.core[i] {
        CoreLabelsAgree(g, a, b, i);
      } else {
        BorderLabelsAgree(g, a, b, i);
      }
    }
  }

  /** The labels do not depend on the order the worklists are popped in. */
  lemma AnyOrderSameLabels(g: Graph, pick: Pick, other: Pick)
    requires g.Valid() && g.Symmetric()
    ensures Scan(g, Fresh(|g.near|), 0, 0, pick).labels == Scan(g, Fresh(|g.near|), 0, 0, other).labels
    ensures IsClustering(g, Scan(g, Fresh(|g.near|), 0, 0, pick).labels)
  {
    ScanClusters(g, pick);
    ScanClusters(g, other);
    Canonical(g, Scan(g, Fresh(|g.near|), 0, 0, pick).labels, Scan(g, Fresh(|g.near|), 0, 0, other).labels);
  }

  lemma BorderLabelsAgree(g: Graph, a: Labels, b: Labels, i: int)
    requires g.Valid() && IsClustering(g, a) && IsClustering(g, b)
    requires g.Row(i) && !g.core[i]
    ensures a[i] == b[i]
  {
    assert BorderLabel(g, a, i) && BorderLabel(g, b, i);
    if a[i] != -1 {
      var j :| g.CoreNeighbour(j, i) && a[j] == a[i];
      CoreLabelsAgree(g, a, b, j);
    }
    if b[i] != -1 {
      var j :| g.CoreNeighbour(j, i) && b[j] == b[i];
      CoreLabelsAgree(g, a, b, j);
    }
  }

  // -------------------------------------------------------------------------
  // Two samples: connected components
  // -------------------------------------------------------------------------

  /** A walk over neighbours, core or not. */
  ghost predicate Walk(g: Graph, p: seq<int>)
    requires g.Valid()
  {
    && |p| > 0
    && (forall k :: 0 <= k < |p| ==> g.Row(p[k]))
    && (forall k :: 0 < k < |p| ==> g.near[p[k - 1]][p[k]])
  }

  ghost predicate Joined(g: Graph, i: int, j: int)
    requires g.Valid()
  {
    exists p :: Walk(g, p) && p[0] == i && p[|p| - 1] == j
  }

  ghost predicate Isolated(g: Graph, i: int)
    requires g.Valid() && g.Row(i)
  {
    forall j :: g.Row(j) && j != i ==> !g.near[i][j]
  }

  ghost predicate Ascending(s: seq<int>) {
    forall a, b :: 0 <= a < b < |s| ==> s[a] < s[b]
  }

  lemma {:induction false} FlatAscending(row: seq<bool>, from: nat)
    requires from <= |row|
    ensures Ascending(NonzeroFrom(row, from))
    decreases |row| - from
  {
    if from < |row| {
      FlatAscending(row, from + 1);
      var rest := NonzeroFrom(row, from + 1);
      forall k | 0 <= k < |rest| ensures from < rest[k] {
        assert rest[k] in rest;
      }
      assert NonzeroFrom(row, from) == (if row[from] then [from] else []) + rest;
    }
  }

  lemma CoreIffNotIsolated(sim: seq<seq<real>>, eps: real, i: int)
    requires SymmetricMatrix(sim) && 0 <= i < |sim| && sim[i][i] >= 1.0 - eps
    ensures var g := GraphOf(sim, eps, 2); g.core[i] <==> !Isolated(g, i)
  {
    var g := GraphOf(sim, eps, 2);
    var r := FlatNonzero(g.near[i]);
    FlatAscending(g.near[i], 0);
    if |r| >= 2 {
      assert r[0] in r && r[1] in r && r[0] < r[1];
    }
    if !Isolated(g, i) {
      var j :| g.Row(j) && j != i && g.near[i][j];
      assert i in r && j in r;
    }
  }

  /** Without isolated rows in the way, a walk from a core row meets core rows only. */
  lemma {:induction false} WalkIsCore(g: Graph, p: seq<int>, k: nat)
    requires g.Valid() && g.Symmetric() && Walk(g, p) && k < |p|
    requires forall i :: g.Row(i) ==> (g.core[i] <==> !Isolated(g, i))
    requires g.core[p[0]]
    ensures g.core[p[k]]
  {
    if k > 0 {
      WalkIsCore(g, p, k - 1);
      NeighbourIsCore(g, p[k - 1], p[k]);
    }
  }

  lemma WalkIsChain(g: Graph, p: seq<int>)
    requires g.Valid() && g.Symmetric() && Walk(g, p)
    requires forall i :: g.Row(i) ==> (g.core[i] <==> !Isolated(g, i))
    requires g.core[p[0]]
    ensures g.Chain(p)
  {
    forall k: nat | k < |p| ensures g.core[p[k]] {
      WalkIsCore(g, p, k);
    }
  }

  lemma NeighbourIsCore(g: Graph, a: int, b: int)
    requires g.Valid() && g.Symmetric() && g.Row(a) && g.Row(b) && g.core[a] && g.near[a][b]
    requires g.core[b] <==> !Isolated(g, b)
    ensures g.core[b]
  {
    assert g.near[b][a];
  }

  /** Both callers ask for two samples.  Then noise is exactly the rows with no other neighbour,
      and two rows share a cluster exactly when neighbours join them. */
  lemma ComponentsAtTwo(sim: seq<seq<real>>, eps: real, labels: Labels)
    requires SymmetricMatrix(sim) && (forall i :: 0 <= i < |sim| ==> sim[i][i] >= 1.0 - eps)
    requires IsClustering(GraphOf(sim, eps, 2), labels)
    ensures var g := GraphOf(sim, eps, 2);
            && (forall i :: 0 <= i < |sim| ==> (labels[i] == -1 <==> Isolated(g, i)))
            && (forall i, j :: 0 <= i < |sim| && 0 <= j < |sim| && labels[i] >= 0 && labels[j] >= 0 ==>
                  (labels[i] == labels[j] <==> Joined(g, i, j)))
  {
    var g := GraphOf(sim, eps, 2);
    forall i | g.Row(i) ensures g.core[i] <==> !Isolated(g, i) {
      CoreIffNotIsolated(sim, eps, i);
    }
    forall i | g.Row(i) ensures labels[i] == -1 <==> Isolated(g, i) {
      NoiseIffIsolated(g, labels, i);
    }
    forall i, j | g.Row(i) && g.Row(j) && labels[i] >= 0 && labels[j] >= 0
      ensures labels[i] == labels[j] <==> Joined(g, i, j)
    {
      JoinedIffLinked(g, i, j);
    }
  }

  lemma NoiseIffIsolated(g: Graph, labels: Labels, i: int)
    requires g.Valid() && g.Symmetric() && IsClustering(g, labels) && g.Row(i)
    requires g.core[i] <==> !Isolated(g, i)
    ensures labels[i] == -1 <==> Isolated(g, i)
  {
    if !g.core[i] {
      assert BorderLabel(g, labels, i);
      assert forall j :: g.Row(j) && g.near[j][i] ==> j == i;
      assert forall j :: !g.CoreNeighbour(j, i);
    }
  }

  lemma JoinedIffLinked(g: Graph, i: int, j: int)
    requires g.Valid() && g.Symmetric() && g.Row(i) && g.Row(j) && g.core[i]
    requires forall r :: g.Row(r) ==> (g.core[r] <==> !Isolated(g, r))
    ensures g.Linked(i, j) <==> Joined(g, i, j)
  {
    if g.Linked(i, j) {
      var p :| g.Chain(p) && p[0] == i && p[|p| - 1] == j;
      assert Walk(g, p);
    }
    if Joined(g, i, j) {
      var p :| Walk(g, p) && p[0] == i && p[|p| - 1] == j;
      WalkIsChain(g, p);
    }
  }

  // -------------------------------------------------------------------------
  // Shrinking the radius
  // -------------------------------------------------------------------------

  lemma {:induction false} FewerNeighbours(tight: seq<bool>, loose: seq<bool>, from: nat)
    requires |tight| == |loose| && from <= |tight|
    requires forall j :: 0 <= j < |tight| && tight[j] ==> loose[j]
    ensures |NonzeroFrom(tight, from)| <= |NonzeroFrom(loose, from)|
    decreases |tight| - from
  {
    if from < |tight| {
      FewerNeighbours(tight, loose, from + 1);
    }
  }

  /** For any minimum, core rows that share a tight cluster share a loose one. */
  lemma TightCoresStayTogether(sim: seq<seq<real>>, tight: real, loose: real, minSamples: int,
                               small: Labels, large: Labels, i: int, j: int)
    requires SymmetricMatrix(sim) && tight <= loose && 0 <= i < |sim| && 0 <= j < |sim|
    requires IsClustering(GraphOf(sim, tight, minSamples), small)
    requires IsClustering(GraphOf(sim, loose, minSamples), large)
    requires GraphOf(sim, tight, minSamples).core[i] && GraphOf(sim, tight, minSamples).core[j]
    requires small[i] == small[j]
    ensures large[i] == large[j] >= 0
  {
    var g, h := GraphOf(sim, tight, minSamples), GraphOf(sim, loose, minSamples);
    forall r | g.Row(r) && g.core[r] ensures h.core[r] {
      FewerNeighbours(g.near[r], h.near[r], 0);
    }
    assert g.Linked(i, j);
    var p :| g.Chain(p) && p[0] == i && p[|p| - 1] == j;
    assert h.Chain(p);
    assert h.Linked(i, j);
  }

  /** At two samples a smaller radius only splits clusters. */
  lemma ShrinkingRefines(sim: seq<seq<real>>, tight: real, loose: real, small: Labels, large: Labels)
    requires SymmetricMatrix(sim) && tight <= loose
    requires forall i :: 0 <= i < |sim| ==> sim[i][i] >= 1.0 - tight
    requires IsClustering(GraphOf(sim, tight, 2), small) && IsClustering(GraphOf(sim, loose, 2), large)
    ensures forall i, j :: 0 <= i < |sim| && 0 <= j < |sim| && small[i] == small[j] >= 0 ==>
      large[i] == large[j] >= 0
  {
    ComponentsAtTwo(sim, tight, small);
    forall i, j | 0 <= i < |sim| && 0 <= j < |sim| && small[i] == small[j] >= 0
      ensures large[i] == large[j] >= 0
    {
      CoreIffNotIsolated(sim, tight, i);
      CoreIffNotIsolated(sim, tight, j);
      TightCoresStayTogether(sim, tight, loose, 2, small, large, i, j);
    }
  }
}
