/** Density clustering over a similarity matrix: the worklist loop, what its labels mean,
    and that they are the only labels with that meaning. */
module Dbscan {

  /** Which rows are neighbours, and which have enough of them to be core rows. */
  datatype Graph = Graph(near: seq<seq<bool>>, core: seq<bool>) {

    predicate Valid() {
      && |core| == |near|
      && forall i :: 0 <= i < |near| ==> |near[i]| == |near|
    }

    predicate Row(i: int) {
      0 <= i < |near|
    }

    ghost predicate Symmetric()
      requires Valid()
    {
      forall i, j :: Row(i) && Row(j) && near[i][j] ==> near[j][i]
    }

    /** A non-empty chain of core rows, each a neighbour of the one before. */
    ghost predicate Chain(p: seq<int>)
      requires Valid()
    {
      && |p| > 0
      && (forall k :: 0 <= k < |p| ==> Row(p[k]) && core[p[k]])
      && (forall k :: 0 < k < |p| ==> near[p[k - 1]][p[k]])
    }

    ghost predicate Linked(i: int, j: int)
      requires Valid()
    {
      exists p :: Chain(p) && p[0] == i && p[|p| - 1] == j
    }

    ghost predicate CoreNeighbour(j: int, i: int)
      requires Valid()
    {
      Row(i) && Row(j) && core[j] && near[j][i]
    }
  }

  type Labels = seq<int>

  // -------------------------------------------------------------------------
  // What the labels mean
  // -------------------------------------------------------------------------

  /** The order-free description of a labelling.  -1 is noise. */
  ghost predicate IsClustering(g: Graph, labels: Labels)
    requires g.Valid()
  {
    && |labels| == |g.near|
    && (forall i :: g.Row(i) ==> labels[i] >= -1)
    // core rows are labelled, and share a label exactly when core rows link them
    && (forall i :: g.Row(i) && g.core[i] ==> labels[i] >= 0)
    && (forall i, j :: g.Row(i) && g.Row(j) && g.core[i] && g.core[j] ==>
          (labels[i] == labels[j] <==> g.Linked(i, j)))
    // any other row takes the least label among its core neighbours, or is noise
    && (forall i :: g.Row(i) && !g.core[i] ==> BorderLabel(g, labels, i))
    // ids are handed out in the order of each cluster's first core row
    && (forall i, c :: g.Row(i) && g.core[i] && 0 <= c < labels[i] ==> SeenBefore(g, labels, i, c))
  }

  ghost predicate BorderLabel(g: Graph, labels: Labels, i: int)
    requires g.Valid() && |labels| == |g.near| && g.Row(i)
  {
    if labels[i] == -1 then
      forall j :: !g.CoreNeighbour(j, i)
    else
      && Absorbed(g, labels, i)
      && forall j :: g.CoreNeighbour(j, i) ==> labels[i] <= labels[j]
  }

  ghost predicate Absorbed(g: Graph, labels: Labels, i: int)
    requires g.Valid() && |labels| == |g.near| && g.Row(i)
  {
    exists j :: g.CoreNeighbour(j, i) && labels[j] == labels[i]
  }

  ghost predicate SeenBefore(g: Graph, labels: Labels, i: int, c: int)
    requires g.Valid() && |labels| == |g.near| && g.Row(i)
  {
    exists j :: 0 <= j < i && g.core[j] && labels[j] == c
  }

  // -------------------------------------------------------------------------
  // Chains
  // -------------------------------------------------------------------------

  lemma LinkedSelf(g: Graph, i: int)
    requires g.Valid() && g.Row(i) && g.core[i]
    ensures g.Linked(i, i)
  {
    assert g.Chain([i]);
  }

  lemma LinkedStep(g: Graph, i: int, j: int, k: int)
    requires g.Valid() && g.Linked(i, j)
    requires g.Row(j) && g.Row(k) && g.core[k] && g.near[j][k]
    ensures g.Linked(i, k)
  {
    var p :| g.Chain(p) && p[0] == i && p[|p| - 1] == j;
    assert g.Chain(p + [k]);
  }

  lemma LinkedSymmetric(g: Graph, i: int, j: int)
    requires g.Valid() && g.Symmetric() && g.Linked(i, j)
    ensures g.Linked(j, i)
  {
    var p :| g.Chain(p) && p[0] == i && p[|p| - 1] == j;
    var q := seq(|p|, k requires 0 <= k < |p| => p[|p| - 1 - k]);
    forall k | 0 < k < |q| ensures g.near[q[k - 1]][q[k]] {
      var m := |p| - k;
      assert q[k - 1] == p[m] && q[k] == p[m - 1];
    }
    assert g.Chain(q);
  }

  lemma LinkedTransitive(g: Graph, i: int, j: int, k: int)
    requires g.Valid() && g.Linked(i, j) && g.Linked(j, k)
    ensures g.Linked(i, k)
  {
    var p :| g.Chain(p) && p[0] == i && p[|p| - 1] == j;
    var q :| g.Chain(q) && q[0] == j && q[|q| - 1] == k;
    var r := p + q[1..];
    forall m | 0 < m < |r| ensures g.near[r[m - 1]][r[m]] {
      if m >= |p| {
        assert r[m - 1] == q[m - |p|] && r[m] == q[m - |p| + 1];
      }
    }
    assert g.Chain(r);
  }

  // -------------------------------------------------------------------------
  // Facts the worklist keeps
  // -------------------------------------------------------------------------

  /** Sizes, ranges, and which rows have been visited. */
  ghost predicate Marked(g: Graph, labels: Labels, visited: seq<bool>, clusters: int)
    requires g.Valid()
  {
    && |labels| == |visited| == |g.near|
    && (forall i :: g.Row(i) ==> -1 <= labels[i] < clusters)
    && (forall i :: g.Row(i) && labels[i] >= 0 ==> visited[i])
    && (forall i :: g.Row(i) && g.core[i] && visited[i] ==> labels[i] >= 0)
  }

  /** `leaders[c]` is the row that begun cluster `c`; it is the cluster's first core row. */
  ghost predicate Led(g: Graph, labels: Labels, leaders: seq<int>)
    requires g.Valid() && |labels| == |g.near|
  {
    && (forall c :: 0 <= c < |leaders| ==>
          g.Row(leaders[c]) && g.core[leaders[c]] && labels[leaders[c]] == c)
    && (forall c, d :: 0 <= c < d < |leaders| ==> leaders[c] < leaders[d])
    && (forall i :: g.Row(i) && g.core[i] && 0 <= labels[i] < |leaders| ==>
          leaders[labels[i]] <= i && g.Linked(leaders[labels[i]], i))
  }

  /** A labelled row that is not core has its label from a core neighbour. */
  ghost predicate Bordered(g: Graph, labels: Labels)
    requires g.Valid() && |labels| == |g.near|
  {
    forall i :: g.Row(i) && !g.core[i] && labels[i] >= 0 ==> Absorbed(g, labels, i)
  }

  /** Clusters below `bound` have been expanded completely. */
  ghost predicate Expanded(g: Graph, labels: Labels, bound: int)
    requires g.Valid() && |labels| == |g.near|
  {
    forall i, j :: g.CoreNeighbour(i, j) && 0 <= labels[i] < bound ==>
      0 <= labels[j] <= labels[i] && (g.core[j] ==> labels[j] == labels[i])
  }

  /** What is left of cluster `c` is in the queue. */
  ghost predicate Pending(g: Graph, labels: Labels, queue: seq<int>, c: int)
    requires g.Valid() && |labels| == |g.near|
  {
    forall i, j :: g.CoreNeighbour(i, j) && labels[i] == c ==> labels[j] >= 0 || j in queue
  }

  /** The queue holds only neighbours of cluster `c`'s core rows. */
  ghost predicate Justified(g: Graph, labels: Labels, queue: seq<int>, c: int)
    requires g.Valid() && |labels| == |g.near|
  {
    forall p :: p in queue ==> g.Row(p) && Reached(g, labels, p, c)
  }

  ghost predicate Reached(g: Graph, labels: Labels, p: int, c: int)
    requires g.Valid() && |labels| == |g.near|
  {
    exists j :: g.CoreNeighbour(j, p) && labels[j] == c
  }

  // -------------------------------------------------------------------------
  // Labelling one row keeps the facts
  // -------------------------------------------------------------------------

  lemma KeepMarked(g: Graph, labels: Labels, visited: seq<bool>, clusters: int, x: int, c: int)
    requires g.Valid() && g.Row(x) && Marked(g, labels, visited, clusters)
    requires 0 <= c <= clusters
    ensures Marked(g, labels[x := c], visited[x := true], if c == clusters then clusters + 1 else clusters)
  {
  }

  lemma KeepBordered(g: Graph, labels: Labels, x: int, c: int)
    requires g.Valid() && |labels| == |g.near| && g.Row(x) && labels[x] == -1 && c >= 0
    requires Bordered(g, labels)
    requires !g.core[x] ==> Reached(g, labels, x, c)
    ensures Bordered(g, labels[x := c])
  {
    var L := labels[x := c];
    forall i | g.Row(i) && !g.core[i] && L[i] >= 0 ensures Absorbed(g, L, i) {
      if i == x {
        assert Reached(g, labels, x, c);
        var j :| g.CoreNeighbour(j, x) && labels[j] == c;
        assert g.CoreNeighbour(j, i) && L[j] == L[i];
      } else {
        assert Absorbed(g, labels, i);
        var j :| g.CoreNeighbour(j, i) && labels[j] == labels[i];
        assert g.CoreNeighbour(j, i) && L[j] == L[i];
      }
    }
  }

  lemma KeepLed(g: Graph, labels: Labels, leaders: seq<int>, x: int)
    requires g.Valid() && |labels| == |g.near| && g.Row(x) && labels[x] == -1
    requires |leaders| > 0 && Led(g, labels, leaders)
    requires g.core[x] ==> leaders[|leaders| - 1] <= x && Reached(g, labels, x, |leaders| - 1)
    ensures Led(g, labels[x := |leaders| - 1], leaders)
  {
    var c := |leaders| - 1;
    if g.core[x] {
      var j :| g.CoreNeighbour(j, x) && labels[j] == c;
      LinkedStep(g, leaders[c], j, x);
    }
  }

  lemma OpenLed(g: Graph, labels: Labels, leaders: seq<int>, x: int)
    requires g.Valid() && |labels| == |g.near| && g.Row(x) && labels[x] == -1 && g.core[x]
    requires Led(g, labels, leaders)
    requires forall c :: 0 <= c < |leaders| ==> leaders[c] < x
    requires forall i :: g.Row(i) ==> labels[i] < |leaders|
    ensures Led(g, labels[x := |leaders|], leaders + [x])
  {
    LinkedSelf(g, x);
  }

  lemma KeepExpanded(g: Graph, labels: Labels, x: int, c: int)
    requires g.Valid() && |labels| == |g.near| && g.Row(x) && labels[x] == -1
    requires Expanded(g, labels, c)
    ensures Expanded(g, labels[x := c], c)
  {
  }

  lemma KeepPending(g: Graph, labels: Labels, queue: seq<int>, x: int, c: int, added: seq<int>)
    requires g.Valid() && |labels| == |g.near| && g.Row(x) && c >= 0
    requires Pending(g, labels, queue + [x], c)
    requires g.core[x] ==> forall j :: g.Row(j) && g.near[x][j] ==> labels[j] >= 0 || j in added || j == x
    ensures Pending(g, labels[x := c], queue + added, c)
  {
    var L := labels[x := c];
    forall i, j | g.CoreNeighbour(i, j) && L[i] == c ensures L[j] >= 0 || j in queue + added {
      if i != x {
        assert labels[j] >= 0 || j in queue + [x];
      }
    }
  }

  lemma KeepJustified(g: Graph, labels: Labels, queue: seq<int>, x: int, c: int, added: seq<int>)
    requires g.Valid() && |labels| == |g.near| && g.Row(x) && labels[x] == -1 && c >= 0
    requires Justified(g, labels, queue, c)
    requires forall j :: j in added ==> g.CoreNeighbour(x, j)
    ensures Justified(g, labels[x := c], queue + added, c)
  {
    var L := labels[x := c];
    forall p | p in queue + added ensures g.Row(p) && Reached(g, L, p, c) {
      if p in queue {
        assert Reached(g, labels, p, c);
        var j :| g.CoreNeighbour(j, p) && labels[j] == c;
        assert g.CoreNeighbour(j, p) && L[j] == c;
      } else {
        assert g.CoreNeighbour(x, p) && L[x] == c;
      }
    }
  }

  /** An empty queue means the newest cluster is expanded too. */
  lemma CloseCluster(g: Graph, labels: Labels, c: int)
    requires g.Valid() && g.Symmetric() && |labels| == |g.near|
    requires forall i :: g.Row(i) ==> -1 <= labels[i] <= c
    requires Expanded(g, labels, c) && Pending(g, labels, [], c)
    ensures Expanded(g, labels, c + 1)
  {
    forall i, j | g.CoreNeighbour(i, j) && 0 <= labels[i] < c + 1
      ensures 0 <= labels[j] <= labels[i] && (g.core[j] ==> labels[j] == labels[i])
    {
      if labels[i] == c && g.core[j] && labels[j] != c {
        assert g.CoreNeighbour(j, i);
      }
    }
  }

  // -------------------------------------------------------------------------
  // When every row has been visited
  // -------------------------------------------------------------------------

  lemma {:induction false} ChainKeepsLabel(g: Graph, labels: Labels, bound: int, p: seq<int>)
    requires g.Valid() && |labels| == |g.near| && Expanded(g, labels, bound) && g.Chain(p)
    requires forall i :: g.Row(i) && g.core[i] ==> 0 <= labels[i] < bound
    ensures labels[p[0]] == labels[p[|p| - 1]]
    decreases |p|
  {
    if |p| > 1 {
      var q := p[..|p| - 1];
      assert g.Chain(q);
      ChainKeepsLabel(g, labels, bound, q);
      assert g.CoreNeighbour(p[|p| - 2], p[|p| - 1]);
    }
  }

  lemma SharedIffLinked(g: Graph, labels: Labels, leaders: seq<int>, i: int, j: int)
    requires g.Valid() && g.Symmetric() && |labels| == |g.near|
    requires Led(g, labels, leaders) && Expanded(g, labels, |leaders|)
    requires forall r :: g.Row(r) && g.core[r] ==> 0 <= labels[r] < |leaders|
    requires g.Row(i) && g.Row(j) && g.core[i] && g.core[j]
    ensures labels[i] == labels[j] <==> g.Linked(i, j)
  {
    if labels[i] == labels[j] {
      LinkedSymmetric(g, leaders[labels[i]], i);
      LinkedTransitive(g, i, leaders[labels[i]], j);
    }
    if g.Linked(i, j) {
      var p :| g.Chain(p) && p[0] == i && p[|p| - 1] == j;
      ChainKeepsLabel(g, labels, |leaders|, p);
    }
  }

  lemma Finished(g: Graph, labels: Labels, visited: seq<bool>, leaders: seq<int>)
    requires g.Valid() && g.Symmetric()
    requires Marked(g, labels, visited, |leaders|) && Led(g, labels, leaders)
    requires Bordered(g, labels) && Expanded(g, labels, |leaders|)
    requires forall i :: g.Row(i) ==> visited[i]
    ensures IsClustering(g, labels)
  {
    forall i, j | g.Row(i) && g.Row(j) && g.core[i] && g.core[j]
      ensures labels[i] == labels[j] <==> g.Linked(i, j)
    {
      SharedIffLinked(g, labels, leaders, i, j);
    }
    forall i | g.Row(i) && !g.core[i] ensures BorderLabel(g, labels, i) {
      forall j | g.CoreNeighbour(j, i) ensures 0 <= labels[i] <= labels[j] {
      }
    }
    forall i, c | g.Row(i) && g.core[i] && 0 <= c < labels[i] ensures SeenBefore(g, labels, i, c) {
      assert leaders[c] < leaders[labels[i]] <= i;
    }
  }

  // -------------------------------------------------------------------------
  // The loop
  // -------------------------------------------------------------------------

  /** The columns of a row that are set, from column `from` on. */
  function NonzeroFrom(row: seq<bool>, from: nat): (r: seq<int>)
    requires from <= |row|
    ensures forall j :: j in r <==> from <= j < |row| && row[j]
    decreases |row| - from
  {
    if from == |row| then []
    else (if row[from] then [from] else []) + NonzeroFrom(row, from + 1)
  }

  function FlatNonzero(row: seq<bool>): (r: seq<int>)
    ensures forall j :: j in r <==> 0 <= j < |row| && row[j]
  {
    NonzeroFrom(row, 0)
  }

  /** The neighbour graph of a similarity matrix. */
  function GraphOf(sim: seq<seq<real>>, eps: real, minSamples: int): (g: Graph)
    requires forall i :: 0 <= i < |sim| ==> |sim[i]| == |sim|
    ensures g.Valid() && |g.near| == |sim|
    ensures forall i, j :: 0 <= i < |sim| && 0 <= j < |sim| ==>
      g.near[i][j] == (sim[i][j] >= 1.0 - eps)
    ensures forall i :: 0 <= i < |sim| ==> g.core[i] == (|FlatNonzero(g.near[i])| >= minSamples)
  {
    var near := seq(|sim|, i requires 0 <= i < |sim| =>
      seq(|sim|, j requires 0 <= j < |sim| => sim[i][j] >= 1.0 - eps));
    Graph(near, seq(|sim|, i requires 0 <= i < |sim| => |FlatNonzero(near[i])| >= minSamples))
  }

  ghost predicate SymmetricMatrix(sim: seq<seq<real>>) {
    && (forall i :: 0 <= i < |sim| ==> |sim[i]| == |sim|)
    && (forall i, j :: 0 <= i < |sim| && 0 <= j < |sim| ==> sim[i][j] == sim[j][i])
  }

  function Without(s: seq<int>, x: int): (r: seq<int>)
    ensures forall y :: y in r <==> y in s && y != x
  {
    if s == [] then [] else (if s[0] == x then [] else [s[0]]) + Without(s[1..], x)
  }

  function StillUnlabelled(s: seq<int>, labels: Labels): (r: seq<int>)
    ensures forall y :: y in r <==> y in s && 0 <= y < |labels| && labels[y] == -1
  {
    if s == [] then []
    else (if 0 <= s[0] < |labels| && labels[s[0]] == -1 then [s[0]] else []) + StillUnlabelled(s[1..], labels)
  }

  // -------------------------------------------------------------------------
  // The loop on values
  // -------------------------------------------------------------------------

  datatype Marks = Marks(labels: Labels, visited: seq<bool>)

  ghost function Unvisited(visited: seq<bool>): (s: set<int>) {
    set i | 0 <= i < |visited| && !visited[i]
  }

  predicate Fits(g: Graph, m: Marks, queue: seq<int>)
    requires g.Valid()
  {
    && |m.labels| == |m.visited| == |g.near|
    && forall p :: p in queue ==> g.Row(p)
  }

  /** What visiting a popped row adds to the queue. */
  function Extension(g: Graph, m: Marks, point: int): (r: seq<int>)
    requires g.Valid() && |m.labels| == |m.visited| == |g.near| && g.Row(point)
    ensures forall j :: j in r ==> g.Row(j)
  {
    if !m.visited[point] && g.core[point] then StillUnlabelled(FlatNonzero(g.near[point]), m.labels) else []
  }

  function Touch(m: Marks, point: int, cluster: int): (r: Marks)
    requires |m.labels| == |m.visited| && 0 <= point < |m.labels|
    ensures |r.labels| == |r.visited| == |m.labels|
  {
    Marks(if m.labels[point] == -1 then m.labels[point := cluster] else m.labels, m.visited[point := true])
  }

  /** Which element of the worklist goes next, from everything the loop knows.  No state of the loop
      occurs twice, so every order of popping is one of these. */
  type Pick = (Marks, seq<int>) -> nat

  /** The order the code pops in. */
  function Last(m: Marks, queue: seq<int>): (i: nat) {
    if queue == [] then 0 else |queue| - 1
  }

  function Picked(pick: Pick, m: Marks, queue: seq<int>): (i: nat)
    requires queue != []
    ensures i < |queue|
  {
    pick(m, queue) % |queue|
  }

  function WithoutAt(queue: seq<int>, i: nat): (r: seq<int>)
    requires i < |queue|
    ensures |r| == |queue| - 1 && forall p :: p in r ==> p in queue
    ensures forall p :: p in queue ==> p == queue[i] || p in r
  {
    queue[..i] + queue[i + 1..]
  }

  lemma LastPicked(m: Marks, queue: seq<int>)
    requires queue != []
    ensures Picked(Last, m, queue) == |queue| - 1 && WithoutAt(queue, |queue| - 1) == queue[..|queue| - 1]
  {
  }

  /** The worklist after element `i` is taken and visited. */
  function Popped(g: Graph, m: Marks, queue: seq<int>, i: nat): (r: seq<int>)
    requires g.Valid() && Fits(g, m, queue) && i < |queue|
    ensures forall p :: p in r ==> g.Row(p)
  {
    assert queue[i] in queue;
    WithoutAt(queue, i) + Extension(g, m, queue[i])
  }

  /** The inner loop as a recursion, for any order of popping. */
  ghost function Grow(g: Graph, m: Marks, queue: seq<int>, cluster: int, pick: Pick): (r: Marks)
    requires g.Valid() && Fits(g, m, queue)
    ensures |r.labels| == |r.visited| == |g.near|
    decreases Unvisited(m.visited), |queue|
  {
    if queue == [] then m
    else
      var i := Picked(pick, m, queue);
      assert queue[i] in queue;
      TouchShrinks(m, queue[i], cluster);
      Grow(g, Touch(m, queue[i], cluster), Popped(g, m, queue, i), cluster, pick)
  }

  lemma TouchShrinks(m: Marks, point: int, cluster: int)
    requires |m.labels| == |m.visited| && 0 <= point < |m.labels|
    ensures Unvisited(Touch(m, point, cluster).visited) <= Unvisited(m.visited)
    ensures !m.visited[point] ==> point in Unvisited(m.visited) && point !in Unvisited(Touch(m, point, cluster).visited)
  {
  }

  /** Does row `start` open a cluster? */
  predicate Opens(g: Graph, m: Marks, start: nat)
    requires g.Valid() && |m.labels| == |m.visited| == |g.near| && g.Row(start)
  {
    !m.visited[start] && g.core[start]
  }

  /** One row of the outer loop. */
  ghost function ScanRow(g: Graph, m: Marks, start: nat, cluster: nat, pick: Pick): (r: Marks)
    requires g.Valid() && |m.labels| == |m.visited| == |g.near| && g.Row(start)
    ensures |r.labels| == |r.visited| == |g.near|
  {
    var visited := m.visited[start := true];
    if Opens(g, m, start)
    then Grow(g, Marks(m.labels[start := cluster], visited), Seeds(g, start), cluster, pick)
    else Marks(m.labels, visited)
  }

  /** The outer loop from row `start` on. */
  ghost function Scan(g: Graph, m: Marks, start: nat, cluster: nat, pick: Pick): (r: Marks)
    requires g.Valid() && |m.labels| == |m.visited| == |g.near| && start <= |g.near|
    ensures |r.labels| == |r.visited| == |g.near|
    decreases |g.near| - start
  {
    if start == |g.near| then m
    else Scan(g, ScanRow(g, m, start, cluster, pick), start + 1, if Opens(g, m, start) then cluster + 1 else cluster, pick)
  }

  function Seeds(g: Graph, start: int): (r: seq<int>)
    requires g.Valid() && g.Row(start)
    ensures forall j :: j in r <==> g.Row(j) && g.near[start][j] && j != start
  {
    Without(FlatNonzero(g.near[start]), start)
  }

  /** Between clusters: rows below `start` are visited and every begun cluster is complete. */
  ghost predicate Settled(g: Graph, labels: Labels, visited: seq<bool>, leaders: seq<int>, start: int)
    requires g.Valid()
  {
    && Marked(g, labels, visited, |leaders|)
    && Led(g, labels, leaders)
    && Bordered(g, labels)
    && Expanded(g, labels, |leaders|)
    && (forall i :: 0 <= i < start && g.Row(i) ==> visited[i])
    && (forall c :: 0 <= c < |leaders| ==> leaders[c] < start)
  }

  /** Inside a cluster: the newest one, begun by row `start`, is still growing. */
  ghost predicate Growing(g: Graph, labels: Labels, visited: seq<bool>, leaders: seq<int>,
                          start: int, queue: seq<int>)
    requires g.Valid()
  {
    && |leaders| > 0 && leaders[|leaders| - 1] == start
    && Marked(g, labels, visited, |leaders|)
    && Led(g, labels, leaders)
    && Bordered(g, labels)
    && Expanded(g, labels, |leaders| - 1)
    && Pending(g, labels, queue, |leaders| - 1)
    && Justified(g, labels, queue, |leaders| - 1)
    && (forall i :: 0 <= i <= start && g.Row(i) ==> visited[i])
  }

  /** Rows below `start` are settled, with so many clusters begun. */
  ghost predicate SettledBelow(g: Graph, m: Marks, start: nat, clusters: nat)
    requires g.Valid()
  {
    exists leaders :: |leaders| == clusters && Settled(g, m.labels, m.visited, leaders, start)
  }

  lemma Opened(g: Graph, labels: Labels, visited: seq<bool>, leaders: seq<int>, start: int, queue: seq<int>)
    requires g.Valid() && Settled(g, labels, visited, leaders, start)
    requires g.Row(start) && g.core[start] && !visited[start]
    requires forall j :: j in queue <==> g.Row(j) && g.near[start][j] && j != start
    ensures Growing(g, labels[start := |leaders|], visited[start := true], leaders + [start], start, queue)
  {
    var c := |leaders|;
    KeepMarked(g, labels, visited, c, start, c);
    OpenLed(g, labels, leaders, start);
    KeepBordered(g, labels, start, c);
    KeepExpanded(g, labels, start, c);
    assert Pending(g, labels, [start], c);
    assert [] + [start] == [start] && [] + queue == queue;
    KeepPending(g, labels, [], start, c, queue);
    assert forall j :: j in queue ==> g.CoreNeighbour(start, j);
    KeepJustified(g, labels, [], start, c, queue);
  }

  /** One iteration on a popped row without a label. */
  lemma Labelled(g: Graph, labels: Labels, visited: seq<bool>, leaders: seq<int>, start: int,
                 full: seq<int>, queue: seq<int>, point: int, added: seq<int>)
    requires g.Valid() && Growing(g, labels, visited, leaders, start, full)
    requires forall p :: p in full <==> p in queue || p == point
    requires g.Row(point) && labels[point] == -1
    requires g.core[point] ==> forall j :: j in added <==> g.Row(j) && g.near[point][j] && labels[j] == -1
    requires !g.core[point] ==> added == []
    ensures Growing(g, labels[point := |leaders| - 1], visited[point := true], leaders, start, queue + added)
  {
    var c := |leaders| - 1;
    assert point in full;
    assert Pending(g, labels, queue + [point], c);
    assert Reached(g, labels, point, c);
    KeepMarked(g, labels, visited, |leaders|, point, c);
    KeepLed(g, labels, leaders, point);
    KeepBordered(g, labels, point, c);
    KeepExpanded(g, labels, point, c);
    KeepPending(g, labels, queue, point, c, added);
    assert Justified(g, labels, queue, c) by {
      forall p | p in queue ensures g.Row(p) && Reached(g, labels, p, c) {
        assert p in full;
      }
    }
    KeepJustified(g, labels, queue, point, c, added);
  }

  /** Popping a row that already has a label loses nothing. */
  lemma Skipped(g: Graph, labels: Labels, visited: seq<bool>, leaders: seq<int>, start: int,
                full: seq<int>, queue: seq<int>, point: int)
    requires g.Valid() && Growing(g, labels, visited, leaders, start, full)
    requires forall p :: p in full <==> p in queue || p == point
    requires g.Row(point) && labels[point] >= 0
    ensures Growing(g, labels, visited, leaders, start, queue)
  {
    forall p | p in queue ensures g.Row(p) && Reached(g, labels, p, |leaders| - 1) {
      assert p in full;
    }
    forall i, j | g.CoreNeighbour(i, j) && labels[i] == |leaders| - 1
      ensures labels[j] >= 0 || j in queue
    {
      assert labels[j] >= 0 || j in full;
    }
  }

  lemma Closed(g: Graph, m: Marks, leaders: seq<int>, start: nat)
    requires g.Valid() && g.Symmetric() && Growing(g, m.labels, m.visited, leaders, start, [])
    ensures SettledBelow(g, m, start + 1, |leaders|)
  {
    CloseCluster(g, m.labels, |leaders| - 1);
    assert Settled(g, m.labels, m.visited, leaders, start + 1);
  }

  /** However the worklist is popped, it finishes the cluster. */
  lemma {:induction false} GrowCompletes(g: Graph, m: Marks, leaders: seq<int>, start: nat, queue: seq<int>, pick: Pick)
    requires g.Valid() && g.Symmetric() && Fits(g, m, queue)
    requires Growing(g, m.labels, m.visited, leaders, start, queue)
    ensures SettledBelow(g, Grow(g, m, queue, |leaders| - 1, pick), start + 1, |leaders|)
    decreases Unvisited(m.visited), |queue|
  {
    if queue == [] {
      Closed(g, m, leaders, start);
    } else {
      var i := Picked(pick, m, queue);
      PopFits(g, m, queue, i, |leaders| - 1);
      PopStep(g, m, leaders, start, queue, i);
      PopCloser(g, m, queue, i, |leaders| - 1);
      GrowCompletes(g, Touch(m, queue[i], |leaders| - 1), leaders, start, Popped(g, m, queue, i), pick);
    }
  }

  lemma PopFits(g: Graph, m: Marks, queue: seq<int>, i: nat, cluster: int)
    requires g.Valid() && Fits(g, m, queue) && i < |queue|
    ensures g.Row(queue[i]) && Fits(g, Touch(m, queue[i], cluster), Popped(g, m, queue, i))
  {
    assert queue[i] in queue;
  }

  lemma PopCloser(g: Graph, m: Marks, queue: seq<int>, i: nat, cluster: int)
    requires g.Valid() && Fits(g, m, queue) && i < |queue| && g.Row(queue[i])
    ensures var u, v := Unvisited(m.visited), Unvisited(Touch(m, queue[i], cluster).visited);
            v < u || (v == u && |Popped(g, m, queue, i)| < |queue|)
  {
    TouchShrinks(m, queue[i], cluster);
    if m.visited[queue[i]] {
      assert m.visited[queue[i] := true] == m.visited;
    }
  }

  lemma PopStep(g: Graph, m: Marks, leaders: seq<int>, start: int, queue: seq<int>, i: nat)
    requires g.Valid() && Fits(g, m, queue) && i < |queue| && g.Row(queue[i])
    requires Growing(g, m.labels, m.visited, leaders, start, queue)
    ensures var next := Touch(m, queue[i], |leaders| - 1);
            Growing(g, next.labels, next.visited, leaders, start, Popped(g, m, queue, i))
  {
    if m.labels[queue[i]] == -1 {
      Labelled(g, m.labels, m.visited, leaders, start, queue, WithoutAt(queue, i), queue[i], Extension(g, m, queue[i]));
    } else {
      SkipChangesNothing(g, m, queue, i, |leaders| - 1);
      Skipped(g, m.labels, m.visited, leaders, start, queue, WithoutAt(queue, i), queue[i]);
    }
  }

  lemma SkipChangesNothing(g: Graph, m: Marks, queue: seq<int>, i: nat, cluster: int)
    requires g.Valid() && Fits(g, m, queue) && i < |queue| && g.Row(queue[i])
    requires m.labels[queue[i]] >= 0 && m.visited[queue[i]]
    ensures Touch(m, queue[i], cluster) == m && Popped(g, m, queue, i) == WithoutAt(queue, i)
  {
    assert m.visited[queue[i] := true] == m.visited;
  }

  /** A row that opens a cluster, and one that does not. */
  lemma RowOpens(g: Graph, m: Marks, leaders: seq<int>, start: nat, pick: Pick)
    requires g.Valid() && g.Symmetric() && |m.labels| == |m.visited| == |g.near| && g.Row(start)
    requires Settled(g, m.labels, m.visited, leaders, start) && Opens(g, m, start)
    ensures SettledBelow(g, ScanRow(g, m, start, |leaders|, pick), start + 1, |leaders| + 1)
  {
    var begun := Marks(m.labels[start := |leaders|], m.visited[start := true]);
    Opened(g, m.labels, m.visited, leaders, start, Seeds(g, start));
    GrowCompletes(g, begun, leaders + [start], start, Seeds(g, start), pick);
  }

  lemma RowPassed(g: Graph, m: Marks, leaders: seq<int>, start: nat)
    requires g.Valid() && |m.labels| == |m.visited| == |g.near| && g.Row(start)
    requires Settled(g, m.labels, m.visited, leaders, start) && !Opens(g, m, start)
    ensures SettledBelow(g, Marks(m.labels, m.visited[start := true]), start + 1, |leaders|)
  {
    assert Settled(g, m.labels, m.visited[start := true], leaders, start + 1);
  }

  lemma RowSettles(g: Graph, m: Marks, start: nat, clusters: nat, pick: Pick)
    requires g.Valid() && g.Symmetric() && |m.labels| == |m.visited| == |g.near| && g.Row(start)
    requires SettledBelow(g, m, start, clusters)
    ensures SettledBelow(g, ScanRow(g, m, start, clusters, pick), start + 1, if Opens(g, m, start) then clusters + 1 else clusters)
  {
    var leaders :| |leaders| == clusters && Settled(g, m.labels, m.visited, leaders, start);
    if Opens(g, m, start) {
      RowOpens(g, m, leaders, start, pick);
    } else {
      RowPassed(g, m, leaders, start);
    }
  }

  lemma LastRow(g: Graph, m: Marks, clusters: nat)
    requires g.Valid() && g.Symmetric() && SettledBelow(g, m, |g.near|, clusters)
    ensures IsClustering(g, m.labels)
  {
    var leaders :| |leaders| == clusters && Settled(g, m.labels, m.visited, leaders, |g.near|);
    Finished(g, m.labels, m.visited, leaders);
  }

  lemma {:induction false} ScanSettles(g: Graph, m: Marks, start: nat, clusters: nat, pick: Pick)
    requires g.Valid() && g.Symmetric() && |m.labels| == |m.visited| == |g.near| && start <= |g.near|
    requires SettledBelow(g, m, start, clusters)
    ensures IsClustering(g, Scan(g, m, start, clusters, pick).labels)
    decreases |g.near| - start
  {
    if start == |g.near| {
      LastRow(g, m, clusters);
    } else {
      RowSettles(g, m, start, clusters, pick);
      ScanSettles(g, ScanRow(g, m, start, clusters, pick), start + 1, if Opens(g, m, start) then clusters + 1 else clusters, pick);
    }
  }

  /** In whatever order each worklist is popped, the scan ends in a clustering. */
  lemma ScanClusters(g: Graph, pick: Pick)
    requires g.Valid() && g.Symmetric()
    ensures IsClustering(g, Scan(g, Fresh(|g.near|), 0, 0, pick).labels)
  {
    assert Settled(g, Fresh(|g.near|).labels, Fresh(|g.near|).visited, [], 0);
    ScanSettles(g, Fresh(|g.near|), 0, 0, pick);
  }

  function Fresh(n: nat): (m: Marks)
    ensures |m.labels| == |m.visited| == n
    ensures forall i :: 0 <= i < n ==> m.labels[i] == -1 && !m.visited[i]
  {
    Marks(seq(n, _ => -1), seq(n, _ => false))
  }

  // -------------------------------------------------------------------------
  // The loop on arrays
  // -------------------------------------------------------------------------

  /** The body of the inner loop on one popped row; returns what it adds to the queue. */
  method VisitPoint(g: Graph, minSamples: int, labels: array<int>, visited: array<bool>,
                    point: int, cluster: int) returns (added: seq<int>)
    requires g.Valid() && labels.Length == visited.Length == |g.near| && g.Row(point)
    requires g.core[point] == (|FlatNonzero(g.near[point])| >= minSamples)
    modifies labels, visited
    ensures Marks(labels[..], visited[..]) == Touch(old(Marks(labels[..], visited[..])), point, cluster)
    ensures added == Extension(g, old(Marks(labels[..], visited[..])), point)
  {
    added := [];
    if !visited[point] {
      visited[point] := true;
      var pointNeighbours := FlatNonzero(g.near[point]);
      if |pointNeighbours| >= minSamples {
        added := StillUnlabelled(pointNeighbours, labels[..]);
      }
    }
    if labels[point] == -1 {
      labels[point] := cluster;
    }
  }

  /** The inner loop: pop, visit, extend, label, until the queue is empty. */
  method GrowCluster(g: Graph, minSamples: int, labels: array<int>, visited: array<bool>,
                     seeds: seq<int>, cluster: int)
    requires g.Valid() && Fits(g, Marks(labels[..], visited[..]), seeds)
    requires forall i :: g.Row(i) ==> g.core[i] == (|FlatNonzero(g.near[i])| >= minSamples)
    modifies labels, visited
    ensures Marks(labels[..], visited[..]) == Grow(g, old(Marks(labels[..], visited[..])), seeds, cluster, Last)
  {
    var queue := seeds;
    ghost var m := Marks(labels[..], visited[..]);
    ghost var target := Grow(g, m, seeds, cluster, Last);
    while queue != []
      invariant m == Marks(labels[..], visited[..]) && Fits(g, m, queue)
      invariant Grow(g, m, queue, cluster, Last) == target
      decreases Unvisited(m.visited), |queue|
    {
      var point := queue[|queue| - 1];
      assert point in queue;
      LastPicked(m, queue);
      TouchShrinks(m, point, cluster);
      var added := VisitPoint(g, minSamples, labels, visited, point, cluster);
      queue := queue[..|queue| - 1] + added;
      m := Touch(m, point, cluster);
    }
  }

  /** The whole scan: an unvisited core row opens the next cluster. */
  method DbscanCosine(sim: seq<seq<real>>, eps: real, minSamples: int) returns (labels: array<int>)
    requires SymmetricMatrix(sim)
    ensures fresh(labels) && IsClustering(GraphOf(sim, eps, minSamples), labels[..])
  {
    var g := GraphOf(sim, eps, minSamples);
    labels := ScanRows(g, minSamples, |sim|);
    ScanClusters(g, Last);
  }

  method ScanRows(g: Graph, minSamples: int, n: nat) returns (labels: array<int>)
    requires g.Valid() && n == |g.near|
    requires forall i :: g.Row(i) ==> g.core[i] == (|FlatNonzero(g.near[i])| >= minSamples)
    ensures fresh(labels) && labels[..] == Scan(g, Fresh(n), 0, 0, Last).labels
  {
    labels := new int[n](_ => -1);
    var visited := new bool[n](_ => false);
    var cluster := 0;
    ghost var m := Marks(labels[..], visited[..]);
    ghost var target := Scan(g, m, 0, 0, Last);
    assert m == Fresh(n);

    for start := 0 to n
      invariant fresh(labels) && fresh(visited) && labels.Length == visited.Length == n
      invariant m == Marks(labels[..], visited[..])
      invariant cluster >= 0 && Scan(g, m, start, cluster, Last) == target
    {
      ghost var next := ScanRow(g, m, start, cluster, Last);
      if !visited[start] {
        visited[start] := true;
        var seeds := FlatNonzero(g.near[start]);
        if |seeds| >= minSamples {
          labels[start] := cluster;
          GrowCluster(g, minSamples, labels, visited, Without(seeds, start), cluster);
          cluster := cluster + 1;
        }
      }
      m := next;
      assert visited[..] == m.visited;
    }
  }
}
