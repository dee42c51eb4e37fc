/** The labelling document: what one review action does to it. */
module Labelling {

  import opened Wrappers

  /** "" stands for null where the document may hold either: both mean "no group" or "nobody". */
  datatype Face = Face(id: string, photo: string, group: string)

  datatype Group = Group(id: string, faces: seq<string>, person: string, dropped: bool)

  datatype Source = Cluster | HumanAdded

  datatype Doc = Doc(
    photos: seq<string>, faces: seq<Face>, groups: seq<Group>, people: map<string, seq<string>>,
    labels: map<string, Source>, removed: set<string>, done: map<string, bool>)

  /** `Refusable` is any other route, or a known one without its required fields. */
  datatype Action =
    | NameGroup(group: string, person: string)
    | DropGroup(group: string, drop: bool)
    | MoveFace(face: string, group: string)
    | AddLabel(photo: string, person: string)
    | RemoveLabel(photo: string, person: string)
    | SetSelfies(person: string, selfies: seq<string>)
    | MarkDone(what: string, done: bool)
    | Refusable

  // -------------------------------------------------------------------------
  // Text
  // -------------------------------------------------------------------------

  predicate IsSpace(c: char) {
    c == ' ' || '\t' <= c <= '\r' || '\U{1c}' <= c <= '\U{1f}' || c == '\U{85}' || c == '\U{a0}'
  }

  function Strip(s: string): (r: string)
    ensures r == "" || (!IsSpace(r[0]) && !IsSpace(r[|r| - 1]))
    ensures s == "" || (!IsSpace(s[0]) && !IsSpace(s[|s| - 1])) ==> r == s
  {
    if s == "" then ""
    else if IsSpace(s[0]) then Strip(s[1..])
    else if IsSpace(s[|s| - 1]) then Strip(s[..|s| - 1])
    else s
  }

  function Key(photo: string, person: string): (k: string) {
    photo + "|" + person
  }

  /** What stands before the first bar, all of it when there is none. */
  function Head(s: string): (r: string)
    ensures r <= s && '|' !in r && (|r| == |s| || s[|r|] == '|')
  {
    if s == "" || s[0] == '|' then "" else [s[0]] + Head(s[1..])
  }

  /** The first two fields of a key split at its bars. */
  function PhotoField(key: string): (r: string) {
    Head(key)
  }

  function PersonField(key: string): (r: string) {
    if |Head(key)| == |key| then "" else Head(key[|Head(key)| + 1..])
  }

  // -------------------------------------------------------------------------
  // Lookups
  // -------------------------------------------------------------------------

  /** Position of the first face with this id, or the number of faces. */
  function FaceIndex(faces: seq<Face>, id: string): (i: nat)
    ensures i <= |faces| && (forall k :: 0 <= k < i ==> faces[k].id != id)
    ensures i < |faces| ==> faces[i].id == id
  {
    if faces == [] then 0 else if faces[0].id == id then 0 else 1 + FaceIndex(faces[1..], id)
  }

  function GroupIndex(groups: seq<Group>, id: string): (i: nat)
    ensures i <= |groups| && (forall k :: 0 <= k < i ==> groups[k].id != id)
    ensures i < |groups| ==> groups[i].id == id
  {
    if groups == [] then 0 else if groups[0].id == id then 0 else 1 + GroupIndex(groups[1..], id)
  }

  predicate IsFace(faces: seq<Face>, id: string) {
    FaceIndex(faces, id) < |faces|
  }

  predicate IsGroup(groups: seq<Group>, id: string) {
    GroupIndex(groups, id) < |groups|
  }

  function PhotoOf(faces: seq<Face>, id: string): (photo: string)
    requires IsFace(faces, id)
  {
    faces[FaceIndex(faces, id)].photo
  }

  function RemoveFirst(s: seq<string>, x: string): (r: seq<string>) {
    if s == [] then [] else if s[0] == x then s[1..] else [s[0]] + RemoveFirst(s[1..], x)
  }

  /** The faces picked as somebody's enrolment images. */
  function Chosen(s: Doc, person: string): (r: seq<string>) {
    if person in s.people then s.people[person] else []
  }

  // -------------------------------------------------------------------------
  // One action
  // -------------------------------------------------------------------------

  function Enrolled(people: map<string, seq<string>>, person: string): (r: map<string, seq<string>>) {
    if person in people then people else people[person := []]
  }

  function Named(s: Doc, i: nat, person: string): (r: Doc)
    requires i < |s.groups|
  {
    s.(people := if person == "" then s.people else Enrolled(s.people, person),
       groups := s.groups[i := s.groups[i].(person := person, dropped := false)])
  }

  function Dropped(s: Doc, i: nat, drop: bool): (r: Doc)
    requires i < |s.groups|
  {
    var g := s.groups[i].(dropped := drop);
    s.(groups := s.groups[i := if drop then g.(person := "") else g])
  }

  function Appended(groups: seq<Group>, i: nat, face: string): (r: seq<Group>)
    requires i < |groups|
    ensures |r| == |groups| && forall k :: 0 <= k < |r| ==> r[k].id == groups[k].id
  {
    groups[i := groups[i].(faces := groups[i].faces + [face])]
  }

  function Without(groups: seq<Group>, i: nat, face: string): (r: seq<Group>)
    requires i < |groups|
    ensures |r| == |groups| && forall k :: 0 <= k < |r| ==> r[k].id == groups[k].id
  {
    groups[i := groups[i].(faces := RemoveFirst(groups[i].faces, face))]
  }

  function Into(groups: seq<Group>, target: string, face: string): (r: seq<Group>)
    requires target == "" || IsGroup(groups, target)
    ensures |r| == |groups| && forall k :: 0 <= k < |r| ==> r[k].id == groups[k].id
  {
    if target == "" then groups else Appended(groups, GroupIndex(groups, target), face)
  }

  function OutOf(groups: seq<Group>, source: string, face: string): (r: seq<Group>)
    requires source == "" || IsGroup(groups, source)
    ensures |r| == |groups| && forall k :: 0 <= k < |r| ==> r[k].id == groups[k].id
  {
    if source == "" then groups else Without(groups, GroupIndex(groups, source), face)
  }

  /** Into the target first, then out of the group the face's record names. */
  function Moved(s: Doc, face: string, target: string): (r: Option<Doc>) {
    var f := FaceIndex(s.faces, face);
    if f == |s.faces| then None
    else if target != "" && !IsGroup(s.groups, target) then None
    else
      var gs := Into(s.groups, target, face);
      var source := s.faces[f].group;
      if source != "" && (!IsGroup(gs, source) || face !in gs[GroupIndex(gs, source)].faces) then None
      else Some(s.(groups := OutOf(gs, source, face), faces := s.faces[f := s.faces[f].(group := target)]))
  }

  /** _apply: the document after the action, or nothing when it is refused. */
  function Apply(s: Doc, a: Action): (r: Option<Doc>) {
    match a
    case NameGroup(group, person) =>
      if !IsGroup(s.groups, group) then None else Some(Named(s, GroupIndex(s.groups, group), Strip(person)))
    case DropGroup(group, drop) =>
      if !IsGroup(s.groups, group) then None else Some(Dropped(s, GroupIndex(s.groups, group), drop))
    case MoveFace(face, group) => Moved(s, face, group)
    case AddLabel(photo, person) =>
      var k := Key(photo, person);
      Some(s.(labels := s.labels[k := HumanAdded], removed := s.removed - {k}))
    case RemoveLabel(photo, person) =>
      var k := Key(photo, person);
      Some(s.(labels := s.labels - {k}, removed := s.removed + {k}))
    case SetSelfies(person, selfies) => Some(s.(people := s.people[person := selfies]))
    case MarkDone(what, done) => Some(s.(done := s.done[what := done]))
    case Refusable => None
  }

  // -------------------------------------------------------------------------
  // Labels
  // -------------------------------------------------------------------------

  predicate FacesKnown(s: Doc) {
    forall i :: 0 <= i < |s.groups| ==> AllFaces(s.faces, s.groups[i].faces)
  }

  predicate AllFaces(faces: seq<Face>, ids: seq<string>) {
    forall k :: 0 <= k < |ids| ==> IsFace(faces, ids[k])
  }

  /** The labels a person's face list proposes. */
  function ProposedBy(faces: seq<Face>, ids: seq<string>, person: string): (r: set<string>)
    requires AllFaces(faces, ids)
    ensures forall k :: 0 <= k < |ids| ==> Key(PhotoOf(faces, ids[k]), person) in r
  {
    set k | 0 <= k < |ids| :: Key(PhotoOf(faces, ids[k]), person)
  }

  predicate Claims(g: Group) {
    g.person != "" && !g.dropped
  }

  function Proposed(s: Doc): (r: set<string>)
    requires FacesKnown(s)
  {
    set i, key | 0 <= i < |s.groups| && Claims(s.groups[i]) && key in ProposedBy(s.faces, s.groups[i].faces, s.groups[i].person) :: key
  }

  function HumanKeys(labels: map<string, Source>): (r: set<string>) {
    set k | k in labels && labels[k] == HumanAdded
  }

  /** _recompute_cluster_labels. */
  function Recompute(s: Doc): (r: Doc)
    requires FacesKnown(s)
  {
    var human := HumanKeys(s.labels);
    s.(labels := map k | k in (Proposed(s) + human) - s.removed :: if k in human then HumanAdded else Cluster)
  }

  /** One posted action: refused, or applied and recomputed. */
  function Post(s: Doc, a: Action): (r: Doc)
    requires FacesKnown(s)
    ensures FacesKnown(r)
  {
    match Apply(s, a)
    case None => s
    case Some(t) => ApplyKnows(s, a); Recompute(t)
  }

  lemma SameFaces(before: seq<Face>, after: seq<Face>, id: string)
    requires |before| == |after| && forall i :: 0 <= i < |before| ==> before[i].id == after[i].id
    ensures FaceIndex(before, id) == FaceIndex(after, id)
  {
    var i, j := FaceIndex(before, id), FaceIndex(after, id);
    assert i < |before| ==> after[i].id == id;
    assert j < |after| ==> before[j].id == id;
  }

  lemma {:induction false} Fewer(s: seq<string>, x: string)
    ensures forall y :: y in RemoveFirst(s, x) ==> y in s
    ensures forall y :: y in s && y != x ==> y in RemoveFirst(s, x)
  {
    if s != [] && s[0] != x {
      Fewer(s[1..], x);
    }
  }

  /** The face records keep their ids and photographs. */
  ghost predicate SameRecords(before: seq<Face>, after: seq<Face>) {
    |before| == |after| && forall i :: 0 <= i < |before| ==> after[i].id == before[i].id && after[i].photo == before[i].photo
  }

  lemma ApplyRecords(s: Doc, a: Action)
    requires Apply(s, a).Some?
    ensures var t := Apply(s, a).value;
            SameRecords(s.faces, t.faces) && |t.groups| == |s.groups| && t.photos == s.photos
  {
  }

  lemma ApplyLists(s: Doc, a: Action, i: nat, id: string)
    requires Apply(s, a).Some? && i < |s.groups| && |Apply(s, a).value.groups| == |s.groups|
    requires id in Apply(s, a).value.groups[i].faces
    ensures id in s.groups[i].faces || IsFace(s.faces, id)
  {
    if a.MoveFace? && id != a.face {
      MoveLists(s, a.face, a.group, i, id);
    }
  }

  lemma ApplyKnowsGroup(s: Doc, a: Action, i: nat)
    requires i < |s.groups| && AllFaces(s.faces, s.groups[i].faces)
    requires Apply(s, a).Some? && |Apply(s, a).value.groups| == |s.groups|
    requires SameRecords(s.faces, Apply(s, a).value.faces)
    ensures AllFaces(Apply(s, a).value.faces, Apply(s, a).value.groups[i].faces)
  {
    var t := Apply(s, a).value;
    forall k | 0 <= k < |t.groups[i].faces| ensures IsFace(t.faces, t.groups[i].faces[k]) {
      var id := t.groups[i].faces[k];
      SameFaces(s.faces, t.faces, id);
      ApplyLists(s, a, i, id);
    }
  }

  lemma ApplyKnows(s: Doc, a: Action)
    requires FacesKnown(s) && Apply(s, a).Some?
    ensures FacesKnown(Apply(s, a).value)
  {
    ApplyRecords(s, a);
    forall i | 0 <= i < |s.groups| ensures AllFaces(Apply(s, a).value.faces, Apply(s, a).value.groups[i].faces) {
      ApplyKnowsGroup(s, a, i);
    }
  }

  /** A move touches no other face. */
  lemma MoveLists(s: Doc, face: string, target: string, i: nat, id: string)
    requires Moved(s, face, target).Some? && i < |s.groups| && id != face
    ensures |Moved(s, face, target).value.groups| == |s.groups|
    ensures id in Moved(s, face, target).value.groups[i].faces <==> id in s.groups[i].faces
  {
    var gs := Into(s.groups, target, face);
    Fewer(gs[i].faces, face);
  }

  // -------------------------------------------------------------------------
  // The document in memory, updated in place
  // -------------------------------------------------------------------------

  class State {
    var photos: seq<string>
    var faces: seq<Face>
    var groups: seq<Group>
    var people: map<string, seq<string>>
    var labels: map<string, Source>
    var removed: set<string>
    var done: map<string, bool>

    ghost function Contents(): (r: Doc)
      reads this
    {
      Doc(photos, faces, groups, people, labels, removed, done)
    }

    constructor (s: Doc)
      ensures Contents() == s
    {
      photos, faces, groups, people, labels, removed, done :=
        s.photos, s.faces, s.groups, s.people, s.labels, s.removed, s.done;
    }

    /** The first group with this id; None is the exception. */
    method FindGroup(id: string) returns (i: Option<nat>)
      ensures i == if IsGroup(groups, id) then Some(GroupIndex(groups, id)) else None
    {
      for k := 0 to |groups|
        invariant forall j :: 0 <= j < k ==> groups[j].id != id
      {
        if groups[k].id == id {
          return Some(k);
        }
      }
      return None;
    }

    method FindFace(id: string) returns (i: Option<nat>)
      ensures i == if IsFace(faces, id) then Some(FaceIndex(faces, id)) else None
    {
      for k := 0 to |faces|
        invariant forall j :: 0 <= j < k ==> faces[j].id != id
      {
        if faces[k].id == id {
          return Some(k);
        }
      }
      return None;
    }

    /** Splitting a group.  A refusal may come after the target was already extended. */
    method Move(id: string, target: string) returns (ok: bool)
      modifies this
      ensures ok == Moved(old(Contents()), id, target).Some?
      ensures ok ==> Contents() == Moved(old(Contents()), id, target).value
    {
      var f := FindFace(id);
      if f.None? {
        return false;
      }
      if target != "" {
        var t := FindGroup(target);
        if t.None? {
          return false;
        }
        groups := groups[t.value := groups[t.value].(faces := groups[t.value].faces + [id])];
      }
      var source := faces[f.value].group;
      if source != "" {
        var g := FindGroup(source);
        if g.None? || id !in groups[g.value].faces {
          return false;
        }
        groups := groups[g.value := groups[g.value].(faces := RemoveFirst(groups[g.value].faces, id))];
      }
      faces := faces[f.value := faces[f.value].(group := target)];
      return true;
    }

    /** One branch per route. */
    method Perform(a: Action) returns (ok: bool)
      modifies this
      ensures ok == Apply(old(Contents()), a).Some?
      ensures ok ==> Contents() == Apply(old(Contents()), a).value
    {
      match a {
        case NameGroup(group, name) =>
          var i := FindGroup(group);
          if i.None? {
            return false;
          }
          var person := Strip(name);
          if person != "" && person !in people {
            people := people[person := []];
          }
          groups := groups[i.value := groups[i.value].(person := person, dropped := false)];
        case DropGroup(group, drop) =>
          var i := FindGroup(group);
          if i.None? {
            return false;
          }
          groups := groups[i.value := groups[i.value].(dropped := drop)];
          if drop {
            groups := groups[i.value := groups[i.value].(person := "")];
          }
        case MoveFace(face, group) =>
          ok := Move(face, group);
          return;
        case AddLabel(photo, person) =>
          labels := labels[Key(photo, person) := HumanAdded];
          removed := removed - {Key(photo, person)};
        case RemoveLabel(photo, person) =>
          removed := removed + {Key(photo, person)};
          labels := labels - {Key(photo, person)};
        case SetSelfies(person, selfies) =>
          if person !in people {
            people := people[person := []];
          }
          people := people[person := selfies];
        case MarkDone(what, value) =>
          done := done[what := value];
        case Refusable =>
          return false;
      }
      return true;
    }

    /** The proposals of the groups, one face at a time. */
    method Proposals() returns (proposed: set<string>)
      requires FacesKnown(Contents())
      ensures proposed == Proposed(Contents())
    {
      proposed := {};
      for i := 0 to |groups|
        invariant proposed == ProposedUpTo(Contents(), i)
      {
        ProposedNext(Contents(), i);
        if Claims(groups[i]) {
          proposed := AddProposals(proposed, groups[i]);
        }
      }
      ProposedAll(Contents());
    }

    method AddProposals(before: set<string>, g: Group) returns (proposed: set<string>)
      requires AllFaces(faces, g.faces)
      ensures proposed == before + ProposedBy(faces, g.faces, g.person)
    {
      proposed := before;
      for k := 0 to |g.faces|
        invariant proposed == before + ProposedBy(faces, g.faces[..k], g.person)
      {
        ProposedByNext(faces, g.faces, k, g.person);
        proposed := proposed + {Key(PhotoOf(faces, g.faces[k]), g.person)};
      }
      assert g.faces[..|g.faces|] == g.faces;
    }

    method RecomputeLabels()
      requires FacesKnown(Contents())
      modifies this
      ensures Contents() == Recompute(old(Contents()))
    {
      var proposed := Proposals();
      var human := map k | k in labels && labels[k] == HumanAdded :: HumanAdded;
      var next := (map k | k in proposed :: Cluster) + human;
      ghost var all := next;
      var todo := removed;
      while todo != {}
        invariant todo <= removed && next == all - (removed - todo)
        decreases todo
      {
        var key :| key in todo;
        next := next - {key};
        todo := todo - {key};
      }
      RecomputedLabels(Contents(), proposed, human, removed);
      labels := next;
    }
  }

  /** Proposals and human labels, less what is removed. */
  lemma RecomputedLabels(s: Doc, proposed: set<string>, human: map<string, Source>, removed: set<string>)
    requires FacesKnown(s) && proposed == Proposed(s) && removed == s.removed
    requires human == map k | k in s.labels && s.labels[k] == HumanAdded :: HumanAdded
    ensures (map k | k in proposed :: Cluster) + human - removed == Recompute(s).labels
  {
    assert human.Keys == HumanKeys(s.labels);
  }

  function ProposedUpTo(s: Doc, n: nat): (r: set<string>)
    requires FacesKnown(s) && n <= |s.groups|
  {
    Proposed(s.(groups := s.groups[..n]))
  }

  lemma ProposedNext(s: Doc, n: nat)
    requires FacesKnown(s) && n < |s.groups|
    ensures var g := s.groups[n];
            ProposedUpTo(s, n + 1) == ProposedUpTo(s, n) + if Claims(g) then ProposedBy(s.faces, g.faces, g.person) else {}
  {
    var a, b := s.groups[..n], s.groups[..n + 1];
    assert b == a + [s.groups[n]];
  }

  lemma ProposedAll(s: Doc)
    requires FacesKnown(s)
    ensures ProposedUpTo(s, |s.groups|) == Proposed(s)
  {
    assert s.groups[..|s.groups|] == s.groups;
  }

  lemma ProposedByNext(faces: seq<Face>, ids: seq<string>, n: nat, person: string)
    requires AllFaces(faces, ids) && n < |ids|
    ensures ProposedBy(faces, ids[..n + 1], person) == ProposedBy(faces, ids[..n], person) + {Key(PhotoOf(faces, ids[n]), person)}
  {
    assert ids[..n + 1] == ids[..n] + [ids[n]];
  }

  /** The document on disk; each request loads it, and writes it back only when accepted. */
  class Server {
    var disk: Doc

    method HandlePost(a: Action) returns (status: int)
      requires FacesKnown(disk)
      modifies this
      ensures disk == Post(old(disk), a)
      ensures status == if Apply(old(disk), a).Some? then 200 else 400
    {
      var current := new State(disk);
      var ok := current.Perform(a);
      if !ok {
        return 400;
      }
      ApplyKnows(disk, a);
      current.RecomputeLabels();
      disk := Doc(current.photos, current.faces, current.groups, current.people, current.labels, current.removed, current.done);
      return 200;
    }
  }
}
