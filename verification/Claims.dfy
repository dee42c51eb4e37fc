/** What the two queues share: which rows a claim takes, in what order, and how long a failure waits. */
module Claims {
  import opened Wrappers

  function Pow2(n: nat): (r: nat)
    ensures r >= 1
  {
    if n == 0 then 1 else 2 * Pow2(n - 1)
  }

  lemma {:induction false} Pow2Monotone(a: nat, b: nat)
    requires a <= b
    ensures Pow2(a) <= Pow2(b)
    decreases b - a
  {
    if a < b {
      Pow2Monotone(a, b - 1);
    }
  }

  /** `order by <key>, id`. */
  predicate Before(keys: seq<int>, a: nat, b: nat)
    requires a < |keys| && b < |keys|
  {
    keys[a] < keys[b] || (keys[a] == keys[b] && a < b)
  }

  ghost predicate RowsOf(keys: seq<int>, candidates: set<nat>) {
    forall i :: i in candidates ==> i < |keys|
  }

  /** A batch is the first `limit` candidates in claim order. */
  ghost predicate IsBatch(keys: seq<int>, candidates: set<nat>, limit: nat, batch: seq<nat>)
    requires RowsOf(keys, candidates)
  {
    && (forall k :: 0 <= k < |batch| ==> batch[k] in candidates)
    && (forall k, l :: 0 <= k < l < |batch| ==> Before(keys, batch[k], batch[l]))
    && (forall i, k :: i in candidates && i !in batch && 0 <= k < |batch| ==> Before(keys, batch[k], i))
    && |batch| <= limit
    && (|batch| < limit ==> forall i :: i in candidates ==> i in batch)
  }

  lemma BatchDistinct(keys: seq<int>, candidates: set<nat>, limit: nat, batch: seq<nat>)
    requires RowsOf(keys, candidates) && IsBatch(keys, candidates, limit, batch)
    ensures NoRepeats(batch)
  {
    forall k, l | 0 <= k < l < |batch| ensures batch[k] != batch[l] {
      assert Before(keys, batch[k], batch[l]);
    }
  }

  lemma {:induction false} SamePosition(keys: seq<int>, candidates: set<nat>, limit: nat, a: seq<nat>, b: seq<nat>, k: nat)
    requires RowsOf(keys, candidates) && IsBatch(keys, candidates, limit, a) && IsBatch(keys, candidates, limit, b)
    requires k < |a| && k < |b|
    ensures a[..k + 1] == b[..k + 1]
  {
    if k > 0 {
      SamePosition(keys, candidates, limit, a, b, k - 1);
    }
    assert forall j :: 0 <= j < k ==> a[j] == a[..k][j] == b[..k][j] == b[j];
    assert a[k] in candidates && b[k] in candidates;
    BatchDistinct(keys, candidates, limit, a);
    BatchDistinct(keys, candidates, limit, b);
    assert a[k] in b ==> a[k] == b[k] || Before(keys, b[k], a[k]);
    assert b[k] in a ==> a[k] == b[k] || Before(keys, a[k], b[k]);
  }

  /** A claim has no choice: its batch is determined by the rows that qualify and the limit. */
  lemma BatchUnique(keys: seq<int>, candidates: set<nat>, limit: nat, a: seq<nat>, b: seq<nat>)
    requires RowsOf(keys, candidates) && IsBatch(keys, candidates, limit, a) && IsBatch(keys, candidates, limit, b)
    ensures a == b
  {
    BatchDistinct(keys, candidates, limit, a);
    BatchDistinct(keys, candidates, limit, b);
    var n := if |a| <= |b| then |a| else |b|;
    if n > 0 {
      SamePosition(keys, candidates, limit, a, b, n - 1);
    }
    assert forall j :: 0 <= j < n ==> a[j] == a[..n][j] == b[..n][j] == b[j];
    if |a| < limit {
      NotLonger(a, b);
    }
    if |b| < limit {
      NotLonger(b, a);
    }
  }

  lemma NotLonger(a: seq<nat>, b: seq<nat>)
    requires NoRepeats(b) && (forall x :: x in b ==> x in a)
    requires forall j :: 0 <= j < |a| && j < |b| ==> a[j] == b[j]
    ensures |b| <= |a|
  {
    var extra := if |a| <= |b| then b[|a|..] else [];
    assert |extra| > 0 ==> extra[0] in extra;
    assert forall k :: 0 <= k < |extra| ==> extra[k] == b[|a| + k];
    assert forall x :: x in extra ==> x in b && x !in a;
  }

  /** The first candidate not taken yet. */
  method FirstCandidate(keys: seq<int>, candidates: set<nat>, taken: seq<nat>) returns (first: Option<nat>)
    requires RowsOf(keys, candidates)
    ensures first.None? ==> forall j :: j in candidates ==> j in taken
    ensures first.Some? ==> first.value in candidates && first.value !in taken
    ensures first.Some? ==> forall j :: j in candidates && j !in taken && j != first.value ==> Before(keys, first.value, j)
  {
    first := None;
    for j := 0 to |keys|
      invariant first.None? ==> forall i :: i in candidates && i < j ==> i in taken
      invariant first.Some? ==> first.value < j && first.value in candidates && first.value !in taken
      invariant first.Some? ==> forall i :: i in candidates && i !in taken && i < j && i != first.value ==>
        Before(keys, first.value, i)
    {
      if j in candidates && j !in taken && (first.None? || Before(keys, j, first.value)) {
        first := Some(j);
      }
    }
  }

  /** `order by .. limit n for update skip locked`, over the rows that qualify. */
  method FirstBatch(keys: seq<int>, candidates: set<nat>, limit: nat) returns (batch: seq<nat>)
    requires RowsOf(keys, candidates)
    ensures IsBatch(keys, candidates, limit, batch)
  {
    batch := [];
    var more := true;
    while more && |batch| < limit
      invariant forall k :: 0 <= k < |batch| ==> batch[k] in candidates
      invariant forall k, l :: 0 <= k < l < |batch| ==> Before(keys, batch[k], batch[l])
      invariant forall j, k :: j in candidates && j !in batch && 0 <= k < |batch| ==> Before(keys, batch[k], j)
      invariant |batch| <= limit
      invariant !more ==> forall j :: j in candidates ==> j in batch
      decreases more, limit - |batch|
    {
      var first := FirstCandidate(keys, candidates, batch);
      if first.None? {
        more := false;
      } else {
        batch := batch + [first.value];
      }
    }
  }
}
