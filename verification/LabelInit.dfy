/** The document a labelling session starts from: album faces grouped by the clustering. */
module LabelInit {
  import opened Wrappers
  import opened Labelling
  import opened LabellingFacts
  import Dbscan
  import DbscanFacts

  const MIN_GROUP_SIZE := 2

  // -------------------------------------------------------------------------
  // Numbered ids
  // -------------------------------------------------------------------------

  function Digit(n: nat): (c: char)
    requires n < 10
  {
    ('0' as int + n) as char
  }

  function Decimal(n: nat): (s: string)
    ensures s != "" && forall c :: c in s ==> '0' <= c <= '9'
  {
    if n < 10 then [Digit(n)] else Decimal(n / 10) + [Digit(n % 10)]
  }

  function Value(s: string): (n: int) {
    if s == "" then 0 else 10 * Value(s[..|s| - 1]) + (s[|s| - 1] as int - '0' as int)
  }

  function Pad(s: string, width: nat): (r: string)
    requires forall c :: c in s ==> '0' <= c <= '9'
    ensures forall c :: c in r ==> '0' <= c <= '9'
    decreases if |s| < width then width - |s| else 0
  {
    if |s| >= width then s else Pad("0" + s, width)
  }

  /** A letter and a zero-padded number. */
  function Numbered(letter: char, width: nat, n: nat): (r: string) {
    [letter] + Pad(Decimal(n), width)
  }

  lemma {:induction false} DecimalValue(n: nat)
    ensures Value(Decimal(n)) == n
  {
    if n >= 10 {
      DecimalValue(n / 10);
    }
  }

  lemma {:induction false} LeadingZero(s: string)
    ensures Value("0" + s) == Value(s)
  {
    if s == "" {
      assert ("0" + s)[..0] == "";
    } else {
      LeadingZero(s[..|s| - 1]);
      assert ("0" + s)[..|s|] == "0" + s[..|s| - 1];
    }
  }

  lemma {:induction false} PadValue(s: string, width: nat)
    requires forall c :: c in s ==> '0' <= c <= '9'
    ensures Value(Pad(s, width)) == Value(s)
    decreases if |s| < width then width - |s| else 0
  {
    if |s| < width {
      LeadingZero(s);
      PadValue("0" + s, width);
    }
  }

  /** Different numbers make different ids, and no id has a bar. */
  lemma NumberedInjective(letter: char, width: nat, m: nat, n: nat)
    ensures Numbered(letter, width, m) == Numbered(letter, width, n) ==> m == n
    ensures letter != '|' ==> '|' !in Numbered(letter, width, n)
  {
    PadValue(Decimal(m), width);
    PadValue(Decimal(n), width);
    DecimalValue(m);
    DecimalValue(n);
    assert Numbered(letter, width, m)[1..] == Pad(Decimal(m), width);
    assert Numbered(letter, width, n)[1..] == Pad(Decimal(n), width);
  }

  function PhotoName(n: nat): (r: string) { Numbered('p', 5, n) }
  function FaceName(n: nat): (r: string) { Numbered('f', 5, n) }
  function GroupName(n: nat): (r: string) { Numbered('g', 4, n) }

  // -------------------------------------------------------------------------
  // Faces by label
  // -------------------------------------------------------------------------

  /** The ids, in order, of the first `n` faces with this label. */
  function Members(faces: seq<Face>, labels: seq<int>, cluster: int, n: nat): (r: seq<string>)
    requires n <= |faces| == |labels|
  {
    if n == 0 then []
    else Members(faces, labels, cluster, n - 1) + if labels[n - 1] == cluster then [faces[n - 1].id] else []
  }

  lemma {:induction false} MembersIff(faces: seq<Face>, labels: seq<int>, cluster: int, n: nat, id: string)
    requires n <= |faces| == |labels|
    ensures id in Members(faces, labels, cluster, n) <==> exists i :: 0 <= i < n && labels[i] == cluster && faces[i].id == id
  {
    if n > 0 {
      MembersIff(faces, labels, cluster, n - 1, id);
      assert labels[n - 1] == cluster ==> Members(faces, labels, cluster, n)[|Members(faces, labels, cluster, n)| - 1] == faces[n - 1].id;
    }
  }

  lemma {:induction false} MembersOnce(faces: seq<Face>, labels: seq<int>, cluster: int, n: nat)
    requires n <= |faces| == |labels| && UniqueFaces(faces)
    ensures NoRepeats(Members(faces, labels, cluster, n))
  {
    if n > 0 {
      MembersOnce(faces, labels, cluster, n - 1);
      MembersIff(faces, labels, cluster, n - 1, faces[n - 1].id);
    }
  }

  ghost predicate ByLabel(faces: seq<Face>, labels: seq<int>, n: nat, byLabel: map<int, seq<string>>, order: seq<int>)
    requires n <= |faces| == |labels|
  {
    && (forall l :: l in byLabel ==> l >= 0 && byLabel[l] == Members(faces, labels, l, n) && byLabel[l] != [])
    && (forall i :: 0 <= i < n && labels[i] >= 0 ==> labels[i] in byLabel)
    && (forall l :: l in byLabel <==> l in order)
    && NoRepeats(order)
  }

  lemma {:induction false} NoMembers(faces: seq<Face>, labels: seq<int>, cluster: int, n: nat)
    requires n <= |faces| == |labels| && forall i :: 0 <= i < n ==> labels[i] != cluster
    ensures Members(faces, labels, cluster, n) == []
  {
    if n > 0 {
      NoMembers(faces, labels, cluster, n - 1);
    }
  }

  /** The dictionary of groups and the order its keys were added in. */
  method GroupByLabel(faces: seq<Face>, labels: seq<int>) returns (byLabel: map<int, seq<string>>, order: seq<int>)
    requires |faces| == |labels|
    ensures ByLabel(faces, labels, |faces|, byLabel, order)
  {
    byLabel, order := map[], [];
    for i := 0 to |faces|
      invariant ByLabel(faces, labels, i, byLabel, order)
    {
      var cluster := labels[i];
      if cluster < 0 {
        continue;
      }
      if cluster !in byLabel {
        NoMembers(faces, labels, cluster, i);
        byLabel := byLabel[cluster := []];
        order := order + [cluster];
      }
      byLabel := byLabel[cluster := byLabel[cluster] + [faces[i].id]];
    }
  }

  // -------------------------------------------------------------------------
  // Biggest first
  // -------------------------------------------------------------------------

  function Size(byLabel: map<int, seq<string>>, l: int): (n: nat) {
    if l in byLabel then |byLabel[l]| else 0
  }

  ghost predicate Descending(byLabel: map<int, seq<string>>, s: seq<int>) {
    forall a, b :: 0 <= a < b < |s| ==> Size(byLabel, s[a]) >= Size(byLabel, s[b])
  }

  /** Behind every label at least as big, so equal sizes keep their order. */
  function Insert(byLabel: map<int, seq<string>>, s: seq<int>, l: int): (r: seq<int>)
    ensures forall x :: x in r <==> x == l || x in s
  {
    if s == [] || Size(byLabel, s[0]) < Size(byLabel, l) then [l] + s
    else
      assert s == [s[0]] + s[1..];
      [s[0]] + Insert(byLabel, s[1..], l)
  }

  function SortBySize(byLabel: map<int, seq<string>>, s: seq<int>): (r: seq<int>)
    ensures forall x :: x in r <==> x in s
  {
    if s == [] then []
    else
      assert s == s[..|s| - 1] + [s[|s| - 1]];
      Insert(byLabel, SortBySize(byLabel, s[..|s| - 1]), s[|s| - 1])
  }

  lemma {:induction false} InsertDescends(byLabel: map<int, seq<string>>, s: seq<int>, l: int)
    requires Descending(byLabel, s) && NoRepeats(s) && l !in s
    ensures Descending(byLabel, Insert(byLabel, s, l)) && NoRepeats(Insert(byLabel, s, l))
  {
    if s != [] && Size(byLabel, s[0]) >= Size(byLabel, l) {
      InsertDescends(byLabel, s[1..], l);
      var r := Insert(byLabel, s[1..], l);
      forall k | 0 <= k < |r| ensures Size(byLabel, s[0]) >= Size(byLabel, r[k]) && r[k] != s[0] {
        assert r[k] in r;
        assert r[k] == l || r[k] in s[1..];
      }
    }
  }

  lemma {:induction false} SortDescends(byLabel: map<int, seq<string>>, s: seq<int>)
    requires NoRepeats(s)
    ensures Descending(byLabel, SortBySize(byLabel, s)) && NoRepeats(SortBySize(byLabel, s))
    decreases |s|
  {
    if s != [] {
      var init := s[..|s| - 1];
      SortDescends(byLabel, init);
      assert s[|s| - 1] !in init;
      InsertDescends(byLabel, SortBySize(byLabel, init), s[|s| - 1]);
    }
  }

  // -------------------------------------------------------------------------
  // Groups and records
  // -------------------------------------------------------------------------

  /** Where a label comes in the order, or its length. */
  function Place(order: seq<int>, l: int): (k: nat)
    ensures k <= |order| && (forall j :: 0 <= j < k ==> order[j] != l)
    ensures k < |order| ==> order[k] == l
  {
    if order == [] then 0 else if order[0] == l then 0 else 1 + Place(order[1..], l)
  }

  function GroupOf(faces: seq<Face>, labels: seq<int>, order: seq<int>, k: nat): (g: Group)
    requires |faces| == |labels| && k < |order|
  {
    Group(GroupName(k), Members(faces, labels, order[k], |faces|), "", false)
  }

  /** The group a face's record names once the first `k` groups are made. */
  function RecordAt(labels: seq<int>, order: seq<int>, k: nat, i: nat): (r: string)
    requires i < |labels|
  {
    if Place(order, labels[i]) < k && Place(order, labels[i]) < |order| then GroupName(Place(order, labels[i])) else ""
  }

  function Recorded(faces: seq<Face>, labels: seq<int>, order: seq<int>, k: nat): (r: seq<Face>)
    requires |faces| == |labels|
    ensures |r| == |faces| && forall i :: 0 <= i < |r| ==> r[i] == faces[i].(group := RecordAt(labels, order, k, i))
  {
    seq(|faces|, i requires 0 <= i < |faces| => faces[i].(group := RecordAt(labels, order, k, i)))
  }

  /** For each id in turn, point the first face with that id at the group. */
  method PointAt(before: seq<Face>, ids: seq<string>, group: string) returns (faces: seq<Face>)
    requires UniqueFaces(before) && AllFaces(before, ids)
    ensures |faces| == |before|
    ensures forall i :: 0 <= i < |faces| ==> faces[i] == if before[i].id in ids then before[i].(group := group) else before[i]
  {
    faces := before;
    for k := 0 to |ids|
      invariant |faces| == |before|
      invariant forall i :: 0 <= i < |faces| ==>
        faces[i] == if before[i].id in ids[..k] then before[i].(group := group) else before[i]
    {
      SameFaces(before, faces, ids[k]);
      assert IsFace(before, ids[k]);
      assert ids[..k + 1] == ids[..k] + [ids[k]];
      var i := FaceIndex(faces, ids[k]);
      faces := faces[i := faces[i].(group := group)];
    }
    assert ids[..|ids|] == ids;
  }

  lemma PointedIsRecorded(faces: seq<Face>, labels: seq<int>, order: seq<int>, k: nat, i: nat)
    requires |faces| == |labels| && UniqueFaces(faces) && NoRepeats(order) && k < |order| && i < |faces|
    ensures faces[i].id in Members(faces, labels, order[k], |faces|) <==> labels[i] == order[k]
    ensures RecordAt(labels, order, k + 1, i) == if labels[i] == order[k] then GroupName(k) else RecordAt(labels, order, k, i)
  {
    MembersIff(faces, labels, order[k], |faces|, faces[i].id);
  }

  lemma MembersAreFaces(faces: seq<Face>, labels: seq<int>, cluster: int)
    requires |faces| == |labels|
    ensures AllFaces(faces, Members(faces, labels, cluster, |faces|))
  {
    var ids := Members(faces, labels, cluster, |faces|);
    forall k | 0 <= k < |ids| ensures IsFace(faces, ids[k]) {
      MembersIff(faces, labels, cluster, |faces|, ids[k]);
    }
  }

  /** One more group: its record in every member. */
  method AddGroup(faces: seq<Face>, labels: seq<int>, order: seq<int>, k: nat, before: seq<Face>) returns (after: seq<Face>)
    requires |faces| == |labels| && UniqueFaces(faces) && NoRepeats(order) && k < |order|
    requires before == Recorded(faces, labels, order, k)
    ensures after == Recorded(faces, labels, order, k + 1)
  {
    var ids := Members(faces, labels, order[k], |faces|);
    MembersAreFaces(faces, labels, order[k]);
    forall j | 0 <= j < |ids| ensures IsFace(before, ids[j]) {
      assert IsFace(faces, ids[j]);
      SameFaces(faces, before, ids[j]);
    }
    after := PointAt(before, ids, GroupName(k));
    forall i | 0 <= i < |faces| ensures after[i] == Recorded(faces, labels, order, k + 1)[i] {
      PointedIsRecorded(faces, labels, order, k, i);
    }
  }

  ghost predicate IsGrouping(faces: seq<Face>, labels: seq<int>, order: seq<int>, groups: seq<Group>, after: seq<Face>) {
    && |faces| == |labels| && |groups| == |order|
    && (forall k :: 0 <= k < |order| ==> groups[k] == GroupOf(faces, labels, order, k) && groups[k].faces != [])
    && after == Recorded(faces, labels, order, |order|)
    && NoRepeats(order) && (forall i :: 0 <= i < |labels| ==> (labels[i] in order <==> labels[i] >= 0))
  }

  method MakeGroups(faces: seq<Face>, labels: seq<int>) returns (groups: seq<Group>, after: seq<Face>, ghost order: seq<int>)
    requires |faces| == |labels| && UniqueFaces(faces) && forall i :: 0 <= i < |faces| ==> faces[i].group == ""
    ensures IsGrouping(faces, labels, order, groups, after)
    ensures forall a, b :: 0 <= a < b < |groups| ==> |groups[a].faces| >= |groups[b].faces|
  {
    var byLabel, keys := GroupByLabel(faces, labels);
    SortDescends(byLabel, keys);
    var sorted := SortBySize(byLabel, keys);
    order := sorted;
    groups, after := [], faces;
    assert after == Recorded(faces, labels, sorted, 0);
    for k := 0 to |sorted|
      invariant |groups| == k && forall j :: 0 <= j < k ==> groups[j] == GroupOf(faces, labels, sorted, j) && groups[j].faces != []
      invariant after == Recorded(faces, labels, sorted, k)
    {
      assert sorted[k] in keys;
      groups := groups + [Group(GroupName(|groups|), byLabel[sorted[k]], "", false)];
      after := AddGroup(faces, labels, sorted, k, after);
    }
    forall a, b | 0 <= a < b < |groups| ensures |groups[a].faces| >= |groups[b].faces| {
      assert sorted[a] in keys && sorted[b] in keys;
      assert Size(byLabel, sorted[a]) >= Size(byLabel, sorted[b]);
    }
  }

  // -------------------------------------------------------------------------
  // What the grouping is
  // -------------------------------------------------------------------------

  /** A record names a group exactly for a labelled face, and two records agree exactly when the labels do. */
  lemma RecordsFollowLabels(faces: seq<Face>, labels: seq<int>, order: seq<int>, groups: seq<Group>, after: seq<Face>, i: nat, j: nat)
    requires IsGrouping(faces, labels, order, groups, after) && i < |after| && j < |after|
    ensures after[i].group == "" <==> labels[i] < 0
    ensures labels[i] >= 0 && labels[j] >= 0 ==> (after[i].group == after[j].group <==> labels[i] == labels[j])
  {
    var a, b := Place(order, labels[i]), Place(order, labels[j]);
    assert labels[i] in order ==> a < |order|;
    assert labels[j] in order ==> b < |order|;
    NumberedInjective('g', 4, a, b);
  }

  lemma GroupingMatches(faces: seq<Face>, labels: seq<int>, order: seq<int>, groups: seq<Group>, after: seq<Face>, i: nat, k: nat)
    requires IsGrouping(faces, labels, order, groups, after) && UniqueFaces(faces) && i < |after| && k < |groups|
    ensures after[i].id in groups[k].faces <==> after[i].group == groups[k].id
  {
    PointedIsRecorded(faces, labels, order, k, i);
    assert labels[i] in order ==> Place(order, labels[i]) < |order|;
    NumberedInjective('g', 4, Place(order, labels[i]), k);
    if labels[i] == order[k] {
      assert Place(order, labels[i]) == k;
    }
  }

  lemma GroupNames(groups: seq<Group>)
    requires forall k :: 0 <= k < |groups| ==> groups[k].id == GroupName(k)
    ensures UniqueGroups(groups)
    ensures forall k :: 0 <= k < |groups| ==> IsGroup(groups, GroupName(k))
  {
    forall a: nat, b: nat | a < b < |groups| ensures groups[a].id != groups[b].id {
      NumberedInjective('g', 4, a, b);
    }
    forall k: nat | k < |groups| ensures IsGroup(groups, GroupName(k)) {
      assert groups[k].id == GroupName(k);
    }
  }

  lemma GroupingIsGrouped(s: Doc, faces: seq<Face>, labels: seq<int>, order: seq<int>)
    requires IsGrouping(faces, labels, order, s.groups, s.faces) && UniqueFaces(faces)
    ensures Grouped(s)
  {
    GroupNames(s.groups);
    forall k: nat | k < |s.groups| ensures AllFaces(s.faces, s.groups[k].faces) && NoRepeats(s.groups[k].faces) {
      MembersOnce(faces, labels, order[k], |faces|);
      MembersAreFaces(faces, labels, order[k]);
      forall m | 0 <= m < |s.groups[k].faces| ensures IsFace(s.faces, s.groups[k].faces[m]) {
        assert IsFace(faces, s.groups[k].faces[m]);
        SameFaces(faces, s.faces, s.groups[k].faces[m]);
      }
    }
    forall i: nat, k: nat | i < |s.faces| && k < |s.groups|
      ensures s.faces[i].id in s.groups[k].faces <==> s.faces[i].group == s.groups[k].id
    {
      GroupingMatches(faces, labels, order, s.groups, s.faces, i, k);
    }
  }

  // -------------------------------------------------------------------------
  // cmd_init
  // -------------------------------------------------------------------------

  /** The faces found in an album; `photoOf[k]` is the photograph of face `k`. */
  function AlbumFaces(photoOf: seq<nat>): (r: seq<Face>)
    ensures |r| == |photoOf| && forall k :: 0 <= k < |r| ==> r[k] == Face(FaceName(k), PhotoName(photoOf[k]), "")
  {
    seq(|photoOf|, k requires 0 <= k < |photoOf| => Face(FaceName(k), PhotoName(photoOf[k]), ""))
  }

  function AlbumPhotos(count: nat): (r: seq<string>)
    ensures |r| == count && forall k :: 0 <= k < count ==> r[k] == PhotoName(k)
  {
    seq(count, k requires 0 <= k < count => PhotoName(k))
  }

  lemma AlbumFacesUnique(photoOf: seq<nat>)
    ensures UniqueFaces(AlbumFaces(photoOf))
  {
    forall a: nat, b: nat | a < b < |photoOf| ensures FaceName(a) != FaceName(b) {
      NumberedInjective('f', 5, a, b);
    }
  }

  /** Faces with no other within eps are in no group; two others share a group exactly when a chain
      of faces within eps joins them. */
  ghost predicate GroupsAreComponents(s: Doc, sim: seq<seq<real>>, eps: real)
    requires Dbscan.SymmetricMatrix(sim) && |s.faces| == |sim|
  {
    var g := Dbscan.GraphOf(sim, eps, MIN_GROUP_SIZE);
    && (forall i :: 0 <= i < |sim| ==> (s.faces[i].group == "" <==> DbscanFacts.Isolated(g, i)))
    && (forall i, j :: 0 <= i < |sim| && 0 <= j < |sim| && s.faces[i].group != "" && s.faces[j].group != "" ==>
          (s.faces[i].group == s.faces[j].group <==> DbscanFacts.Joined(g, i, j)))
  }

  lemma GroupsFollowComponents(s: Doc, faces: seq<Face>, labels: seq<int>, order: seq<int>, sim: seq<seq<real>>, eps: real)
    requires Dbscan.SymmetricMatrix(sim) && |s.faces| == |sim| && forall i :: 0 <= i < |sim| ==> sim[i][i] >= 1.0 - eps
    requires Dbscan.IsClustering(Dbscan.GraphOf(sim, eps, MIN_GROUP_SIZE), labels)
    requires IsGrouping(faces, labels, order, s.groups, s.faces)
    ensures GroupsAreComponents(s, sim, eps)
  {
    DbscanFacts.ComponentsAtTwo(sim, eps, labels);
    var g := Dbscan.GraphOf(sim, eps, MIN_GROUP_SIZE);
    forall i: nat | i < |sim| ensures s.faces[i].group == "" <==> DbscanFacts.Isolated(g, i) {
      RecordsFollowLabels(faces, labels, order, s.groups, s.faces, i, i);
      assert labels[i] >= -1;
    }
    forall i: nat, j: nat | i < |sim| && j < |sim| && s.faces[i].group != "" && s.faces[j].group != ""
      ensures s.faces[i].group == s.faces[j].group <==> DbscanFacts.Joined(g, i, j)
    {
      RecordsFollowLabels(faces, labels, order, s.groups, s.faces, i, j);
      RecordsFollowLabels(faces, labels, order, s.groups, s.faces, j, i);
    }
  }

  /** No group is smaller than two: a face is in one only for another that is near it. */
  lemma GroupHasTwo(s: Doc, sim: seq<seq<real>>, eps: real, k: nat)
    requires Dbscan.SymmetricMatrix(sim) && |s.faces| == |sim| && Grouped(s) && GroupsAreComponents(s, sim, eps)
    requires k < |s.groups| && s.groups[k].faces != []
    ensures |s.groups[k].faces| >= MIN_GROUP_SIZE
  {
    var i := SomeMember(s, k);
    var j := SomeCompanion(s, sim, eps, i);
    RecordListed(s, i, k);
    RecordListed(s, j, k);
    DistinctIds(s, i, j);
    TwoMembers(s.groups[k].faces, s.faces[i].id, s.faces[j].id);
  }

  lemma RecordListed(s: Doc, i: nat, k: nat)
    requires Grouped(s) && i < |s.faces| && k < |s.groups| && s.faces[i].group == s.groups[k].id
    ensures s.faces[i].id in s.groups[k].faces
  {
  }

  lemma DistinctIds(s: Doc, i: nat, j: nat)
    requires Grouped(s) && i < |s.faces| && j < |s.faces| && i != j
    ensures s.faces[i].id != s.faces[j].id
  {
  }

  lemma TwoMembers(ids: seq<string>, a: string, b: string)
    requires a in ids && b in ids && a != b
    ensures |ids| >= 2
  {
    var k, l :| 0 <= k < |ids| && 0 <= l < |ids| && ids[k] == a && ids[l] == b;
  }

  /** A listed face's record names the group that lists it. */
  lemma SomeMember(s: Doc, k: nat) returns (i: nat)
    requires Grouped(s) && k < |s.groups| && s.groups[k].faces != []
    ensures i < |s.faces| && s.faces[i].group == s.groups[k].id != ""
  {
    var ids := s.groups[k].faces;
    assert ids[0] in ids && IsFace(s.faces, ids[0]);
    i := FaceIndex(s.faces, ids[0]);
  }

  lemma SomeCompanion(s: Doc, sim: seq<seq<real>>, eps: real, i: nat) returns (j: nat)
    requires Dbscan.SymmetricMatrix(sim) && |s.faces| == |sim| && GroupsAreComponents(s, sim, eps)
    requires i < |s.faces| && s.faces[i].group != ""
    ensures j < |s.faces| && j != i && s.faces[j].group == s.faces[i].group
  {
    var g := Dbscan.GraphOf(sim, eps, MIN_GROUP_SIZE);
    var n :| g.Row(n) && n != i && g.near[i][n];
    j := n;
    NearIsJoined(g, i, j);
    assert g.near[j][i] && !DbscanFacts.Isolated(g, j);
  }

  lemma NearIsJoined(g: Dbscan.Graph, i: int, j: int)
    requires g.Valid() && g.Row(i) && g.Row(j) && g.near[i][j]
    ensures DbscanFacts.Joined(g, i, j)
  {
    assert DbscanFacts.Walk(g, [i, j]);
  }

  /** None is the exit for an album without a usable face. */
  method Init(photoCount: nat, photoOf: seq<nat>, sim: seq<seq<real>>, eps: real) returns (s: Option<Doc>)
    requires Dbscan.SymmetricMatrix(sim) && |sim| == |photoOf|
    requires forall i :: 0 <= i < |sim| ==> sim[i][i] >= 1.0 - eps
    ensures s.None? <==> photoOf == []
    ensures s.Some? ==>
      && Grouped(s.value) && s.value.labels == map[] && s.value.removed == {} && s.value.people == map[] && s.value.done == map[]
      && s.value.photos == AlbumPhotos(photoCount)
      && SameRecords(AlbumFaces(photoOf), s.value.faces)
      && GroupsAreComponents(s.value, sim, eps)
      && (forall k :: 0 <= k < |s.value.groups| ==> s.value.groups[k].person == "" && |s.value.groups[k].faces| >= MIN_GROUP_SIZE)
      && forall a, b :: 0 <= a < b < |s.value.groups| ==> |s.value.groups[a].faces| >= |s.value.groups[b].faces|
  {
    if photoOf == [] {
      return None;
    }
    var faces := AlbumFaces(photoOf);
    AlbumFacesUnique(photoOf);
    var found := Dbscan.DbscanCosine(sim, eps, MIN_GROUP_SIZE);
    var labels := found[..];
    var groups, after, order := MakeGroups(faces, labels);
    var doc := Doc(AlbumPhotos(photoCount), after, groups, map[], map[], {}, map[]);
    GroupingIsGrouped(doc, faces, labels, order);
    GroupsFollowComponents(doc, faces, labels, order, sim, eps);
    forall k: nat | k < |groups| ensures |groups[k].faces| >= MIN_GROUP_SIZE {
      GroupHasTwo(doc, sim, eps, k);
    }
    return Some(doc);
  }
}
