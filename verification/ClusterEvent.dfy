/** Rebuilding one event's clusters from its tier-2 faces. */
module ClusterEvent {
  import opened Wrappers
  import opened Dbscan
  import opened DbscanFacts

  const MIN_CLUSTER_SIZE := 2

  datatype Cluster = Cluster(event: int, faceCount: nat)

  ghost predicate SelfSimilar(sim: seq<seq<real>>, eps: real)
    requires SymmetricMatrix(sim)
  {
    forall i :: 0 <= i < |sim| ==> sim[i][i] >= 1.0 - eps
  }

  /** The rows carrying one label. */
  function Members(labels: Labels, id: int): (r: set<int>) {
    set i | 0 <= i < |labels| && labels[i] == id
  }

  ghost function Assigned(labels: Labels, below: int): (r: set<int>) {
    set i | 0 <= i < |labels| && 0 <= labels[i] < below
  }

  ghost function Accompanied(g: Graph): (r: set<int>)
    requires g.Valid()
  {
    set i | 0 <= i < |g.near| && !Isolated(g, i)
  }

  function Image(faces: seq<int>, members: set<int>): (r: set<int>)
    requires forall i :: i in members ==> 0 <= i < |faces|
    ensures forall i :: i in members ==> faces[i] in r
    ensures forall f :: f in r ==> exists i :: i in members && faces[i] == f
  {
    set i | i in members :: faces[i]
  }

  function Between(base: int, n: nat): (r: set<int>)
    ensures |r| == n && forall c :: c in r <==> base <= c < base + n
  {
    if n == 0 then {} else Between(base, n - 1) + {base + n - 1}
  }

  /** The cluster rows after inserting labels `0 .. l - 1` with ids from `base` on. */
  function FillClusters(m: map<int, Cluster>, event: int, labels: Labels, base: int, l: nat): (r: map<int, Cluster>)
    ensures forall c :: c in r <==> c in m || base <= c < base + l
    ensures forall c :: c in r ==> r[c] == if base <= c < base + l then Cluster(event, |Members(labels, c - base)|) else m[c]
  {
    if l == 0 then m
    else FillClusters(m, event, labels, base, l - 1)[base + (l - 1) := Cluster(event, |Members(labels, l - 1)|)]
  }

  function PointAt(m: map<int, int>, fs: set<int>, c: int): (r: map<int, int>)
    ensures r.Keys == m.Keys + fs
    ensures forall f :: f in r ==> r[f] == if f in fs then c else m[f]
  {
    m + map f | f in fs :: c
  }

  /** The face references after the same inserts. */
  function FillFaces(m: map<int, int>, faces: seq<int>, labels: Labels, base: int, l: nat): (r: map<int, int>)
    requires |labels| == |faces|
  {
    if l == 0 then m
    else PointAt(FillFaces(m, faces, labels, base, l - 1), Image(faces, Members(labels, l - 1)), base + (l - 1))
  }

  lemma {:induction false} FilledFace(m: map<int, int>, faces: seq<int>, labels: Labels, base: int, l: nat, i: int)
    requires |labels| == |faces| && NoRepeats(faces) && 0 <= i < |faces| && faces[i] !in m
    ensures var r := FillFaces(m, faces, labels, base, l);
            && (faces[i] in r <==> 0 <= labels[i] < l)
            && (faces[i] in r ==> r[faces[i]] == base + labels[i])
  {
    if l > 0 {
      FilledFace(m, faces, labels, base, l - 1, i);
      assert faces[i] in Image(faces, Members(labels, l - 1)) <==> i in Members(labels, l - 1);
    }
  }

  lemma {:induction false} OtherFace(m: map<int, int>, faces: seq<int>, labels: Labels, base: int, l: nat, f: int)
    requires |labels| == |faces| && f !in faces
    ensures var r := FillFaces(m, faces, labels, base, l);
            (f in r <==> f in m) && (f in m ==> r[f] == m[f])
  {
    if l > 0 {
      OtherFace(m, faces, labels, base, l - 1, f);
    }
  }

  /** One more than the largest label. */
  method Top(labels: array<int>) returns (top: nat)
    ensures forall i :: 0 <= i < labels.Length ==> labels[i] < top
    ensures top == 0 || exists i :: 0 <= i < labels.Length && labels[i] == top - 1
  {
    top := 0;
    for i := 0 to labels.Length
      invariant forall j :: 0 <= j < i ==> labels[j] < top
      invariant top == 0 || exists j :: 0 <= j < i && labels[j] == top - 1
    {
      if labels[i] >= top {
        top := labels[i] + 1;
      }
    }
  }

  /** Labels leave no gaps: `np.unique` over the non-negative ones is `0 .. top - 1`. */
  lemma NoGaps(g: Graph, labels: Labels, top: nat, id: int)
    requires g.Valid() && IsClustering(g, labels) && 0 <= id < top
    requires exists i :: 0 <= i < |labels| && labels[i] == top - 1
    ensures Members(labels, id) != {}
  {
    var i :| 0 <= i < |labels| && labels[i] == top - 1;
    var c := i;
    if !g.core[i] {
      assert BorderLabel(g, labels, i);
      c :| g.CoreNeighbour(c, i) && labels[c] == labels[i];
    }
    assert g.Row(c) && g.core[c] && labels[c] == top - 1;
    if id < top - 1 {
      assert SeenBefore(g, labels, c, id);
      c :| 0 <= c < |labels| && g.core[c] && labels[c] == id;
    }
    assert c in Members(labels, id);
  }

  class Store {
    var clusters: map<int, Cluster>
    var clusterOf: map<int, int>      // face id -> cluster id, absent for null
    var nextId: int

    ghost predicate Valid()
      reads this
    {
      && (forall c :: c in clusters ==> c < nextId)
      && (forall f :: f in clusterOf ==> clusterOf[f] in clusters)
    }

    /** Faces alone stay unclustered; the others share a cluster exactly when neighbours join them. */
    ghost predicate Partitioned(faces: seq<int>, g: Graph)
      reads this
      requires g.Valid() && |faces| == |g.near|
    {
      && (forall i :: 0 <= i < |faces| ==> (faces[i] in clusterOf <==> !Isolated(g, i)))
      && (forall i, j :: 0 <= i < |faces| && 0 <= j < |faces| && faces[i] in clusterOf && faces[j] in clusterOf ==>
            (clusterOf[faces[i]] == clusterOf[faces[j]] <==> Joined(g, i, j)))
    }

    /** Every cluster of the event holds some of these faces and counts them. */
    ghost predicate Counted(event: int, faces: seq<int>, written: nat)
      reads this
    {
      && (forall c :: c in clusters && clusters[c].event == event ==>
            clusters[c].faceCount == |Holding(faces, c)| > 0)
      && |OfEvent(event)| == written
    }

    ghost function Holding(faces: seq<int>, c: int): (r: set<int>)
      reads this
    {
      set i | 0 <= i < |faces| && faces[i] in clusterOf && clusterOf[faces[i]] == c
    }

    ghost function OfEvent(event: int): (r: set<int>)
      reads this
    {
      set c | c in clusters && clusters[c].event == event
    }

    /** Deleting a cluster nulls the references to it. */
    method DeleteClusters(event: int)
      requires Valid()
      modifies this
      ensures Valid() && nextId == old(nextId)
      ensures clusters == old(Kept(event)) && clusterOf == old(KeptOf(event))
    {
      clusterOf := map f | f in clusterOf && clusters[clusterOf[f]].event != event :: clusterOf[f];
      clusters := map c | c in clusters && clusters[c].event != event :: clusters[c];
    }

    /** Insert one cluster and point its members at it. */
    method InsertCluster(event: int, faces: seq<int>, members: set<int>)
      requires Valid() && forall i :: i in members ==> 0 <= i < |faces|
      modifies this
      ensures Valid() && nextId == old(nextId) + 1
      ensures clusters == old(clusters)[old(nextId) := Cluster(event, |members|)]
      ensures clusterOf == PointAt(old(clusterOf), Image(faces, members), old(nextId))
    {
      clusters := clusters[nextId := Cluster(event, |members|)];
      clusterOf := PointAt(clusterOf, Image(faces, members), nextId);
      nextId := nextId + 1;
    }

    /** The loop over labels: one cluster each, in label order. */
    method InsertAll(event: int, faces: seq<int>, labels: Labels, top: nat) returns (placed: nat)
      requires Valid() && |labels| == |faces|
      modifies this
      ensures Valid()
      ensures clusters == FillClusters(old(clusters), event, labels, old(nextId), top)
      ensures clusterOf == FillFaces(old(clusterOf), faces, labels, old(nextId), top)
      ensures placed == |Assigned(labels, top)|
    {
      placed := 0;
      for l := 0 to top
        invariant Valid() && nextId == old(nextId) + l
        invariant clusters == FillClusters(old(clusters), event, labels, old(nextId), l)
        invariant clusterOf == FillFaces(old(clusterOf), faces, labels, old(nextId), l)
        invariant placed == |Assigned(labels, l)|
      {
        var members := Members(labels, l);
        InsertCluster(event, faces, members);
        assert Assigned(labels, l + 1) == Assigned(labels, l) + members;
        placed := placed + |members|;
      }
    }

    /** Read, cluster, rebuild.  Returns (clusters written, faces assigned). */
    method Rebuild(event: int, faces: seq<int>, sim: seq<seq<real>>, eps: real)
        returns (written: nat, placed: nat)
      requires Valid() && NoRepeats(faces) && |sim| == |faces|
      requires SymmetricMatrix(sim) && SelfSimilar(sim, eps)
      requires forall i :: 0 <= i < |faces| && faces[i] in clusterOf ==>
        clusterOf[faces[i]] in clusters && clusters[clusterOf[faces[i]]].event == event
      modifies this
      ensures Valid()
      // an event with no tier-2 faces returns early and keeps whatever clusters it had
      ensures faces == [] ==> clusters == old(clusters) && clusterOf == old(clusterOf) && written == placed == 0
      ensures faces != [] ==> Partitioned(faces, GraphOf(sim, eps, MIN_CLUSTER_SIZE)) && Counted(event, faces, written)
      ensures placed == |Accompanied(GraphOf(sim, eps, MIN_CLUSTER_SIZE))|
      ensures OthersKept(event, faces, old(clusters), old(clusterOf))
    {
      ghost var g := GraphOf(sim, eps, MIN_CLUSTER_SIZE);
      if |faces| == 0 {
        assert Accompanied(g) == {};
        return 0, 0;
      }
      var labels := DbscanCosine(sim, eps, MIN_CLUSTER_SIZE);
      var top := Top(labels);
      ghost var kept, keptOf := Kept(event), KeptOf(event);
      placed := Relabel(event, faces, labels[..], top);
      written := top;
      Conclude(event, faces, sim, eps, labels[..], top, kept, keptOf, old(nextId));
    }

    ghost function Kept(event: int): (r: map<int, Cluster>)
      reads this
    {
      map c | c in clusters && clusters[c].event != event :: clusters[c]
    }

    ghost function KeptOf(event: int): (r: map<int, int>)
      requires Valid()
      reads this
    {
      map f | f in clusterOf && clusters[clusterOf[f]].event != event :: clusterOf[f]
    }

    /** The transaction: delete the event's clusters, then insert one per label. */
    method Relabel(event: int, faces: seq<int>, labels: Labels, top: nat) returns (placed: nat)
      requires Valid() && |labels| == |faces|
      modifies this
      ensures Valid()
      ensures clusters == FillClusters(old(Kept(event)), event, labels, old(nextId), top)
      ensures clusterOf == FillFaces(old(KeptOf(event)), faces, labels, old(nextId), top)
      ensures placed == |Assigned(labels, top)|
      ensures OthersKept(event, faces, old(clusters), old(clusterOf))
    {
      ghost var kept, keptOf := Kept(event), KeptOf(event);
      DeleteClusters(event);
      placed := InsertAll(event, faces, labels, top);
      forall f | f !in faces ensures (f in clusterOf <==> f in keptOf) && (f in keptOf ==> clusterOf[f] == keptOf[f]) {
        OtherFace(keptOf, faces, labels, old(nextId), top, f);
      }
    }

    /** Other events keep their clusters and their faces, and gain none. */
    ghost predicate OthersKept(event: int, faces: seq<int>, clusters0: map<int, Cluster>, clusterOf0: map<int, int>)
      reads this
    {
      && (forall c :: c in clusters0 && clusters0[c].event != event ==> c in clusters && clusters[c] == clusters0[c])
      && (forall c :: c in clusters && clusters[c].event != event ==> c in clusters0)
      && (forall f :: f !in faces && f in clusterOf0 && clusterOf0[f] in clusters0 && clusters0[clusterOf0[f]].event != event ==>
            f in clusterOf && clusterOf[f] == clusterOf0[f])
      && (forall f :: f !in faces && f in clusterOf ==> f in clusterOf0)
    }

    lemma Conclude(event: int, faces: seq<int>, sim: seq<seq<real>>, eps: real, labels: Labels, top: nat,
                   kept: map<int, Cluster>, keptOf: map<int, int>, base: int)
      requires SymmetricMatrix(sim) && SelfSimilar(sim, eps) && NoRepeats(faces) && |faces| == |sim| == |labels|
      requires IsClustering(GraphOf(sim, eps, MIN_CLUSTER_SIZE), labels)
      requires forall i :: 0 <= i < |labels| ==> labels[i] < top
      requires top == 0 || exists i :: 0 <= i < |labels| && labels[i] == top - 1
      requires forall c :: c in kept ==> c < base && kept[c].event != event
      requires forall i :: 0 <= i < |faces| ==> faces[i] !in keptOf
      requires clusters == FillClusters(kept, event, labels, base, top)
      requires clusterOf == FillFaces(keptOf, faces, labels, base, top)
      ensures Partitioned(faces, GraphOf(sim, eps, MIN_CLUSTER_SIZE)) && Counted(event, faces, top)
      ensures Assigned(labels, top) == Accompanied(GraphOf(sim, eps, MIN_CLUSTER_SIZE))
    {
      PlacedByLabel(faces, labels, top, keptOf, base);
      Partition(faces, sim, eps, labels, top, base);
      forall l | 0 <= l < top ensures Members(labels, l) != {} {
        NoGaps(GraphOf(sim, eps, MIN_CLUSTER_SIZE), labels, top, l);
      }
      CountMembers(event, faces, labels, top, kept, base);
    }

    lemma Partition(faces: seq<int>, sim: seq<seq<real>>, eps: real, labels: Labels, top: nat, base: int)
      requires SymmetricMatrix(sim) && SelfSimilar(sim, eps) && |faces| == |sim| == |labels|
      requires IsClustering(GraphOf(sim, eps, MIN_CLUSTER_SIZE), labels)
      requires forall i :: 0 <= i < |labels| ==> labels[i] < top
      requires forall i :: 0 <= i < |faces| ==> (faces[i] in clusterOf <==> labels[i] != -1)
      requires forall i :: 0 <= i < |faces| && faces[i] in clusterOf ==> clusterOf[faces[i]] == base + labels[i]
      ensures Partitioned(faces, GraphOf(sim, eps, MIN_CLUSTER_SIZE))
      ensures Assigned(labels, top) == Accompanied(GraphOf(sim, eps, MIN_CLUSTER_SIZE))
    {
      ComponentsAtTwo(sim, eps, labels);
    }

    lemma HoldingIsMembers(faces: seq<int>, labels: Labels, base: int, c: int)
      requires |faces| == |labels| && c >= base
      requires forall i :: 0 <= i < |faces| ==> (faces[i] in clusterOf <==> labels[i] != -1)
      requires forall i :: 0 <= i < |faces| && faces[i] in clusterOf ==> clusterOf[faces[i]] == base + labels[i]
      ensures Holding(faces, c) == Members(labels, c - base)
    {
    }

    lemma CountMembers(event: int, faces: seq<int>, labels: Labels, top: nat, kept: map<int, Cluster>, base: int)
      requires |faces| == |labels|
      requires forall l :: 0 <= l < top ==> Members(labels, l) != {}
      requires forall c :: c in kept ==> c < base && kept[c].event != event
      requires clusters == FillClusters(kept, event, labels, base, top)
      requires forall i :: 0 <= i < |faces| ==> (faces[i] in clusterOf <==> labels[i] != -1)
      requires forall i :: 0 <= i < |faces| && faces[i] in clusterOf ==> clusterOf[faces[i]] == base + labels[i]
      ensures Counted(event, faces, top)
    {
      forall c | c in clusters && clusters[c].event == event
        ensures clusters[c].faceCount == |Holding(faces, c)| > 0
      {
        HoldingIsMembers(faces, labels, base, c);
      }
      assert OfEvent(event) == Between(base, top);
    }

    lemma PlacedByLabel(faces: seq<int>, labels: Labels, top: nat, keptOf: map<int, int>, base: int)
      requires NoRepeats(faces) && |faces| == |labels|
      requires forall i :: 0 <= i < |labels| ==> -1 <= labels[i] < top
      requires forall i :: 0 <= i < |faces| ==> faces[i] !in keptOf
      requires clusterOf == FillFaces(keptOf, faces, labels, base, top)
      ensures forall i :: 0 <= i < |faces| ==> (faces[i] in clusterOf <==> labels[i] != -1)
      ensures forall i :: 0 <= i < |faces| && faces[i] in clusterOf ==> clusterOf[faces[i]] == base + labels[i]
    {
      forall i | 0 <= i < |faces|
        ensures (faces[i] in clusterOf <==> labels[i] != -1)
        ensures faces[i] in clusterOf ==> clusterOf[faces[i]] == base + labels[i]
      {
        FilledFace(keptOf, faces, labels, base, top, i);
      }
    }
  }
}
