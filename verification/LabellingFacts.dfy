/** The labelling document after any history of review actions. */
module LabellingFacts {
  import opened Wrappers
  import opened Labelling

  function Run(s: Doc, actions: seq<Action>): (r: Doc)
    requires FacesKnown(s)
    ensures FacesKnown(r)
  {
    if actions == [] then s else Post(Run(s, actions[..|actions| - 1]), actions[|actions| - 1])
  }

  // -------------------------------------------------------------------------
  // Recomputing
  // -------------------------------------------------------------------------

  lemma RecomputeIdempotent(s: Doc)
    requires FacesKnown(s)
    ensures Recompute(Recompute(s)) == Recompute(s)
  {
    var t := Recompute(s);
    assert Proposed(t) == Proposed(s);
    assert HumanKeys(t.labels) == HumanKeys(s.labels) - s.removed;
  }

  /** A key is proposed exactly when a named, undropped group lists a face of its photograph. */
  lemma ProposedIff(s: Doc, key: string)
    requires FacesKnown(s)
    ensures key in Proposed(s) <==> exists i, k :: Holds(s, i, k, key)
  {
    if key in Proposed(s) {
      var i :| 0 <= i < |s.groups| && Claims(s.groups[i]) && key in ProposedBy(s.faces, s.groups[i].faces, s.groups[i].person);
      var k :| 0 <= k < |s.groups[i].faces| && key == Key(PhotoOf(s.faces, s.groups[i].faces[k]), s.groups[i].person);
      assert Holds(s, i, k, key);
    }
    if i, k :| Holds(s, i, k, key) {
      assert key in ProposedBy(s.faces, s.groups[i].faces, s.groups[i].person);
    }
  }

  ghost predicate Holds(s: Doc, i: int, k: int, key: string)
    requires FacesKnown(s)
  {
    && 0 <= i < |s.groups| && Claims(s.groups[i]) && 0 <= k < |s.groups[i].faces|
    && AllFaces(s.faces, s.groups[i].faces)
    && key == Key(PhotoOf(s.faces, s.groups[i].faces[k]), s.groups[i].person)
  }

  // -------------------------------------------------------------------------
  // What was said last
  // -------------------------------------------------------------------------

  datatype Verdict = Added | Removed | Silent

  function Says(a: Action, key: string): (v: Verdict) {
    match a
    case AddLabel(photo, person) => if Key(photo, person) == key then Added else Silent
    case RemoveLabel(photo, person) => if Key(photo, person) == key then Removed else Silent
    case _ => Silent
  }

  /** The last explicit word on a key, or what held before. */
  function LastWord(actions: seq<Action>, key: string, before: Verdict): (v: Verdict) {
    if actions == [] then before
    else
      var last := Says(actions[|actions| - 1], key);
      if last != Silent then last else LastWord(actions[..|actions| - 1], key, before)
  }

  /** How a key stands in the document. */
  ghost predicate Stands(s: Doc, key: string, v: Verdict)
    requires FacesKnown(s)
  {
    match v
    case Added => key in s.labels && s.labels[key] == HumanAdded && key !in s.removed
    case Removed => key !in s.labels && key in s.removed
    case Silent => key !in s.removed && (key in s.labels <==> key in Proposed(s)) && (key in s.labels ==> s.labels[key] == Cluster)
  }

  /** Recomputing gives every key the standing its human record asks for. */
  lemma RecomputeStands(s: Doc, key: string)
    requires FacesKnown(s)
    ensures Stands(Recompute(s), key,
                   if key in s.removed then Removed else if key in HumanKeys(s.labels) then Added else Silent)
  {
    assert Proposed(Recompute(s)) == Proposed(s);
  }

  /** The human record of one key, before recomputing. */
  lemma ApplyRecord(s: Doc, a: Action, key: string, v: Verdict)
    requires FacesKnown(s) && Stands(s, key, v) && Apply(s, a).Some?
    ensures var t, w := Apply(s, a).value, if Says(a, key) != Silent then Says(a, key) else v;
            (key in t.removed <==> w == Removed) && (key in HumanKeys(t.labels) && key !in t.removed <==> w == Added)
  {
  }

  lemma PostStands(s: Doc, a: Action, key: string, v: Verdict)
    requires FacesKnown(s) && Stands(s, key, v)
    ensures Stands(Post(s, a), key, if Says(a, key) != Silent then Says(a, key) else v)
  {
    if Apply(s, a).Some? {
      ApplyRecord(s, a, key, v);
      ApplyKnows(s, a);
      RecomputeStands(Apply(s, a).value, key);
    }
  }

  /** After any history, refused actions included: a pair is human-added if its last explicit action
      was an add, absent if it was a remove, and otherwise there exactly when a group proposes it. */
  lemma {:induction false} LastWordDecides(s: Doc, actions: seq<Action>, key: string, v: Verdict)
    requires FacesKnown(s) && Stands(s, key, v)
    ensures Stands(Run(s, actions), key, LastWord(actions, key, v))
    decreases |actions|
  {
    if actions != [] {
      var init, last := actions[..|actions| - 1], actions[|actions| - 1];
      LastWordDecides(s, init, key, v);
      PostStands(Run(s, init), last, key, LastWord(init, key, v));
    }
  }

  /** A session that starts from an unlabelled document. */
  lemma FreshSession(s: Doc, actions: seq<Action>, key: string)
    requires FacesKnown(s) && s.labels == map[] && s.removed == {}
    ensures Stands(Run(Recompute(s), actions), key, LastWord(actions, key, Silent))
  {
    RecomputeStands(s, key);
    LastWordDecides(Recompute(s), actions, key, Silent);
  }

  // -------------------------------------------------------------------------
  // One group for each face
  // -------------------------------------------------------------------------

  ghost predicate UniqueFaces(faces: seq<Face>) {
    forall a, b :: 0 <= a < b < |faces| ==> faces[a].id != faces[b].id
  }

  ghost predicate UniqueGroups(groups: seq<Group>) {
    && (forall a, b :: 0 <= a < b < |groups| ==> groups[a].id != groups[b].id)
    && (forall a :: 0 <= a < |groups| ==> groups[a].id != "")
  }

  /** A face is in a group's list exactly when its record names the group. */
  ghost predicate ListsMatchRecords(s: Doc) {
    forall i, j :: 0 <= i < |s.faces| && 0 <= j < |s.groups| ==>
      (s.faces[i].id in s.groups[j].faces <==> s.faces[i].group == s.groups[j].id)
  }

  ghost predicate RecordsNameGroups(s: Doc) {
    forall i :: 0 <= i < |s.faces| ==> s.faces[i].group == "" || IsGroup(s.groups, s.faces[i].group)
  }

  ghost predicate ListsOnce(s: Doc) {
    forall j :: 0 <= j < |s.groups| ==> NoRepeats(s.groups[j].faces)
  }

  ghost predicate Grouped(s: Doc) {
    UniqueFaces(s.faces) && UniqueGroups(s.groups) && FacesKnown(s) && ListsMatchRecords(s) && RecordsNameGroups(s) && ListsOnce(s)
  }

  lemma {:induction false} RemoveFirstOnce(s: seq<string>, x: string)
    requires NoRepeats(s)
    ensures NoRepeats(RemoveFirst(s, x)) && x !in RemoveFirst(s, x)
  {
    if s != [] && s[0] != x {
      RemoveFirstOnce(s[1..], x);
      Fewer(s[1..], x);
      var r := RemoveFirst(s[1..], x);
      forall k | 0 <= k < |r| ensures r[k] != s[0] {
        assert r[k] in s[1..];
      }
    }
  }

  lemma {:induction false} RemoveFirstAppended(s: seq<string>, x: string)
    requires x in s
    ensures RemoveFirst(s + [x], x) == RemoveFirst(s, x) + [x]
  {
    if s[0] != x {
      RemoveFirstAppended(s[1..], x);
      assert (s + [x])[1..] == s[1..] + [x];
    } else {
      assert (s + [x])[1..] == s[1..] + [x];
    }
  }

  lemma GroupIndexAt(groups: seq<Group>, j: nat)
    requires UniqueGroups(groups) && j < |groups|
    ensures GroupIndex(groups, groups[j].id) == j
  {
  }

  lemma FaceIndexAt(faces: seq<Face>, i: nat)
    requires UniqueFaces(faces) && i < |faces|
    ensures FaceIndex(faces, faces[i].id) == i
  {
  }

  lemma SameGroupIds(before: seq<Group>, after: seq<Group>, id: string)
    requires |before| == |after| && forall k :: 0 <= k < |before| ==> after[k].id == before[k].id
    ensures GroupIndex(before, id) == GroupIndex(after, id)
  {
    var i, j := GroupIndex(before, id), GroupIndex(after, id);
    assert i < |before| ==> after[i].id == id;
    assert j < |after| ==> before[j].id == id;
  }

  /** A move is refused exactly for an unknown face or an unknown target. */
  lemma MoveRefusedIff(s: Doc, face: string, target: string)
    requires Grouped(s)
    ensures Moved(s, face, target).None? <==> !IsFace(s.faces, face) || (target != "" && !IsGroup(s.groups, target))
  {
    var f := FaceIndex(s.faces, face);
    if f < |s.faces| && (target == "" || IsGroup(s.groups, target)) {
      var source := s.faces[f].group;
      var gs := Into(s.groups, target, face);
      SameGroupIds(s.groups, gs, source);
      assert source == "" || IsGroup(s.groups, source);
      if source != "" {
        assert s.faces[f].id in s.groups[GroupIndex(s.groups, source)].faces;
      }
    }
  }

  /** The moved face's list in group `j`: what happens by whether `j` is the target, the source, both or neither. */
  function MovedList(fs: seq<string>, face: string, isTarget: bool, isSource: bool): (r: seq<string>) {
    var wider := if isTarget then fs + [face] else fs;
    if isSource then RemoveFirst(wider, face) else wider
  }

  lemma MovedListIs(s: Doc, face: string, target: string, j: nat)
    requires Grouped(s) && j < |s.groups| && Moved(s, face, target).Some?
    ensures var t, f := Moved(s, face, target).value, FaceIndex(s.faces, face);
            f < |s.faces| && |t.groups| == |s.groups| && t.groups[j].id == s.groups[j].id
            && t.groups[j].faces
               == MovedList(s.groups[j].faces, face, target == s.groups[j].id, s.faces[f].group == s.groups[j].id)
  {
    var gs, source := Into(s.groups, target, face), s.faces[FaceIndex(s.faces, face)].group;
    IntoAt(s.groups, target, face, j);
    OutOfAt(gs, source, face, j);
  }

  lemma IntoAt(groups: seq<Group>, target: string, face: string, j: nat)
    requires UniqueGroups(groups) && (target == "" || IsGroup(groups, target)) && j < |groups|
    ensures UniqueGroups(Into(groups, target, face))
    ensures Into(groups, target, face)[j].faces == groups[j].faces + if target == groups[j].id then [face] else []
  {
    GroupIndexAt(groups, j);
  }

  lemma OutOfAt(groups: seq<Group>, source: string, face: string, j: nat)
    requires UniqueGroups(groups) && (source == "" || IsGroup(groups, source)) && j < |groups|
    ensures OutOf(groups, source, face)[j].faces
         == if source == groups[j].id then RemoveFirst(groups[j].faces, face) else groups[j].faces
  {
    GroupIndexAt(groups, j);
  }

  lemma MovedListGood(fs: seq<string>, face: string, isTarget: bool, isSource: bool)
    requires NoRepeats(fs) && (face in fs <==> isSource)
    ensures NoRepeats(MovedList(fs, face, isTarget, isSource))
    ensures face in MovedList(fs, face, isTarget, isSource) <==> isTarget
    ensures forall x :: x != face ==> (x in MovedList(fs, face, isTarget, isSource) <==> x in fs)
  {
    RemoveFirstOnce(fs, face);
    Fewer(fs, face);
    if isTarget && isSource {
      RemoveFirstAppended(fs, face);
    }
  }

  lemma MoveKeepsList(s: Doc, face: string, target: string, j: nat)
    requires Grouped(s) && j < |s.groups| && Moved(s, face, target).Some?
    ensures var t := Moved(s, face, target).value;
            |t.groups| == |s.groups| && t.groups[j].id == s.groups[j].id
            && NoRepeats(t.groups[j].faces)
            && forall x :: x in t.groups[j].faces <==> if x == face then target == s.groups[j].id else x in s.groups[j].faces
  {
    var f := FaceIndex(s.faces, face);
    MovedListIs(s, face, target, j);
    assert s.faces[f].id in s.groups[j].faces <==> s.faces[f].group == s.groups[j].id;
    MovedListGood(s.groups[j].faces, face, target == s.groups[j].id, s.faces[f].group == s.groups[j].id);
  }

  lemma MoveKeepsRecord(s: Doc, face: string, target: string, i: nat)
    requires Grouped(s) && i < |s.faces| && Moved(s, face, target).Some?
    ensures var t := Moved(s, face, target).value;
            |t.faces| == |s.faces| && t.faces[i].id == s.faces[i].id
            && t.faces[i].group == if s.faces[i].id == face then target else s.faces[i].group
  {
    FaceIndexAt(s.faces, i);
  }

  lemma MoveMatches(s: Doc, face: string, target: string, i: nat, j: nat)
    requires Grouped(s) && i < |s.faces| && j < |s.groups| && Moved(s, face, target).Some?
    ensures var t := Moved(s, face, target).value;
            |t.faces| == |s.faces| && |t.groups| == |s.groups|
            && (t.faces[i].id in t.groups[j].faces <==> t.faces[i].group == t.groups[j].id)
  {
    MoveKeepsRecord(s, face, target, i);
    MoveKeepsList(s, face, target, j);
    assert s.faces[i].id in s.groups[j].faces <==> s.faces[i].group == s.groups[j].id;
  }

  lemma MoveKeepsGrouped(s: Doc, face: string, target: string)
    requires Grouped(s) && Moved(s, face, target).Some?
    ensures Grouped(Moved(s, face, target).value)
  {
    var t := Moved(s, face, target).value;
    ApplyKnows(s, MoveFace(face, target));
    ApplyRecords(s, MoveFace(face, target));
    forall j: nat | j < |s.groups| ensures t.groups[j].id == s.groups[j].id && NoRepeats(t.groups[j].faces) {
      MoveKeepsList(s, face, target, j);
    }
    forall i: nat, j: nat | i < |t.faces| && j < |t.groups|
      ensures t.faces[i].id in t.groups[j].faces <==> t.faces[i].group == t.groups[j].id
    {
      MoveMatches(s, face, target, i, j);
    }
    forall i: nat | i < |t.faces| ensures t.faces[i].group == "" || IsGroup(t.groups, t.faces[i].group) {
      MoveKeepsRecord(s, face, target, i);
      SameGroupIds(s.groups, t.groups, t.faces[i].group);
      MoveRefusedIff(s, face, target);
    }
  }

  lemma ApplyKeepsGrouped(s: Doc, a: Action)
    requires Grouped(s) && Apply(s, a).Some?
    ensures Grouped(Apply(s, a).value)
  {
    if a.MoveFace? {
      MoveKeepsGrouped(s, a.face, a.group);
    } else {
      ApplyKnows(s, a);
      SameListsGrouped(s, Apply(s, a).value);
    }
  }

  lemma SameListsGrouped(s: Doc, t: Doc)
    requires Grouped(s) && FacesKnown(t) && t.faces == s.faces && |t.groups| == |s.groups|
    requires forall j :: 0 <= j < |s.groups| ==> t.groups[j].id == s.groups[j].id && t.groups[j].faces == s.groups[j].faces
    ensures Grouped(t)
  {
    forall i | 0 <= i < |t.faces| ensures t.faces[i].group == "" || IsGroup(t.groups, t.faces[i].group) {
      SameGroupIds(s.groups, t.groups, t.faces[i].group);
    }
  }

  /** Through any history each face is in exactly the one group its record names, once, or in none. */
  lemma {:induction false} RunKeepsGrouped(s: Doc, actions: seq<Action>)
    requires Grouped(s)
    ensures Grouped(Run(s, actions))
    decreases |actions|
  {
    if actions != [] {
      var init, last := actions[..|actions| - 1], actions[|actions| - 1];
      RunKeepsGrouped(s, init);
      var a := Run(s, init);
      if Apply(a, last).Some? {
        ApplyKeepsGrouped(a, last);
        SameListsGrouped(Apply(a, last).value, Post(a, last));
      }
    }
  }

  // -------------------------------------------------------------------------
  // Groups and records as functions of the history
  // -------------------------------------------------------------------------

  datatype Standing = Standing(person: string, dropped: bool)

  function StandingOf(g: Group): (r: Standing) {
    Standing(g.person, g.dropped)
  }

  /** Who a group is after one action. */
  function Restand(a: Action, group: string, was: Standing): (r: Standing) {
    match a
    case NameGroup(g, person) => if g == group then Standing(Strip(person), false) else was
    case DropGroup(g, drop) => if g == group then Standing(if drop then "" else was.person, drop) else was
    case _ => was
  }

  function StandingAfter(actions: seq<Action>, group: string, before: Standing): (r: Standing) {
    if actions == [] then before
    else Restand(actions[|actions| - 1], group, StandingAfter(actions[..|actions| - 1], group, before))
  }

  /** Where a face is after one action. */
  function Regroup(groups: seq<Group>, a: Action, face: string, was: string): (r: string) {
    match a
    case MoveFace(f, target) => if f == face && (target == "" || IsGroup(groups, target)) then target else was
    case _ => was
  }

  function GroupAfter(groups: seq<Group>, actions: seq<Action>, face: string, before: string): (r: string) {
    if actions == [] then before
    else Regroup(groups, actions[|actions| - 1], face, GroupAfter(groups, actions[..|actions| - 1], face, before))
  }

  ghost predicate SameGroups(s: Doc, t: Doc) {
    |t.groups| == |s.groups| && forall j :: 0 <= j < |s.groups| ==> t.groups[j].id == s.groups[j].id
  }

  lemma PostKeepsIds(s: Doc, a: Action)
    requires Grouped(s)
    ensures SameRecords(s.faces, Post(s, a).faces) && SameGroups(s, Post(s, a))
  {
    if Apply(s, a).Some? {
      ApplyRecords(s, a);
      if a.MoveFace? {
        forall j: nat | j < |s.groups| ensures Apply(s, a).value.groups[j].id == s.groups[j].id {
          MoveKeepsList(s, a.face, a.group, j);
        }
      }
    }
  }

  lemma MoveKeepsStanding(s: Doc, face: string, target: string, j: nat)
    requires j < |s.groups| && Moved(s, face, target).Some?
    ensures |Moved(s, face, target).value.groups| == |s.groups|
    ensures StandingOf(Moved(s, face, target).value.groups[j]) == StandingOf(s.groups[j])
  {
  }

  lemma ApplyStanding(s: Doc, a: Action, j: nat)
    requires Grouped(s) && j < |s.groups| && Apply(s, a).Some?
    ensures |Apply(s, a).value.groups| == |s.groups|
    ensures StandingOf(Apply(s, a).value.groups[j]) == Restand(a, s.groups[j].id, StandingOf(s.groups[j]))
  {
    if a.MoveFace? {
      MoveKeepsStanding(s, a.face, a.group, j);
    } else {
      GroupIndexAt(s.groups, j);
    }
  }

  lemma PostStanding(s: Doc, a: Action, j: nat)
    requires Grouped(s) && j < |s.groups|
    ensures |Post(s, a).groups| == |s.groups|
    ensures StandingOf(Post(s, a).groups[j]) == Restand(a, s.groups[j].id, StandingOf(s.groups[j]))
  {
    if Apply(s, a).Some? {
      ApplyStanding(s, a, j);
    } else if a.NameGroup? || a.DropGroup? {
      assert !IsGroup(s.groups, a.group);
      assert GroupIndex(s.groups, a.group) == |s.groups|;
    }
  }

  lemma PostGroup(s: Doc, a: Action, i: nat)
    requires Grouped(s) && i < |s.faces|
    ensures |Post(s, a).faces| == |s.faces|
    ensures Post(s, a).faces[i].group == Regroup(s.groups, a, s.faces[i].id, s.faces[i].group)
  {
    if a.MoveFace? {
      MoveRefusedIff(s, a.face, a.group);
      if Apply(s, a).Some? {
        MoveKeepsRecord(s, a.face, a.group, i);
      } else {
        FaceIndexAt(s.faces, i);
      }
    }
  }

  /** The whole document is a function of the history: groups' names and faces' groups too. */
  lemma {:induction false} HistoryDecides(s: Doc, actions: seq<Action>)
    requires Grouped(s)
    ensures var t := Run(s, actions);
            SameRecords(s.faces, t.faces) && SameGroups(s, t)
            && (forall j :: 0 <= j < |s.groups| ==>
                  StandingOf(t.groups[j]) == StandingAfter(actions, s.groups[j].id, StandingOf(s.groups[j])))
            && (forall i :: 0 <= i < |s.faces| ==>
                  t.faces[i].group == GroupAfter(s.groups, actions, s.faces[i].id, s.faces[i].group))
    decreases |actions|
  {
    if actions != [] {
      var init, last := actions[..|actions| - 1], actions[|actions| - 1];
      HistoryDecides(s, init);
      RunKeepsGrouped(s, init);
      var a := Run(s, init);
      PostKeepsIds(a, last);
      forall j: nat | j < |s.groups|
        ensures StandingOf(Post(a, last).groups[j]) == StandingAfter(actions, s.groups[j].id, StandingOf(s.groups[j]))
      {
        PostStanding(a, last, j);
      }
      forall i: nat | i < |s.faces|
        ensures Post(a, last).faces[i].group == GroupAfter(s.groups, actions, s.faces[i].id, s.faces[i].group)
      {
        PostGroup(a, last, i);
        if last.MoveFace? {
          SameGroupIds(s.groups, a.groups, last.group);
        }
      }
    }
  }

  /** The action replaces or takes away a group's name.  Taking a group back does not bring one. */
  ghost predicate Renames(a: Action, group: string) {
    (a.NameGroup? && a.group == group) || (a.DropGroup? && a.group == group && a.drop)
  }

  ghost predicate NamesAt(actions: seq<Action>, k: int, group: string, person: string) {
    && 0 <= k < |actions| && actions[k].NameGroup? && actions[k].group == group && Strip(actions[k].person) == person
    && forall l :: k < l < |actions| ==> !Renames(actions[l], group)
  }

  /** The last action that touches the group's name gives it this one. */
  ghost predicate LastNamed(actions: seq<Action>, group: string, person: string) {
    exists k :: NamesAt(actions, k, group, person)
  }

  lemma LastNamedSnoc(init: seq<Action>, last: Action, group: string, person: string)
    ensures LastNamed(init + [last], group, person)
       <==> if Renames(last, group) then last.NameGroup? && Strip(last.person) == person else LastNamed(init, group, person)
  {
    var actions := init + [last];
    if Renames(last, group) {
      if last.NameGroup? && Strip(last.person) == person {
        assert NamesAt(actions, |init|, group, person);
      }
      forall k | NamesAt(actions, k, group, person) ensures k == |init| {
        assert actions[|init|] == last;
      }
    } else {
      if k :| NamesAt(init, k, group, person) {
        assert NamesAt(actions, k, group, person);
      }
      if k :| NamesAt(actions, k, group, person) {
        assert forall l :: k < l < |init| ==> init[l] == actions[l];
        assert NamesAt(init, k, group, person);
      }
    }
  }

  lemma {:induction false} StandingIff(actions: seq<Action>, group: string, before: Standing, person: string)
    requires before.person == "" && person != ""
    ensures StandingAfter(actions, group, before).person == person <==> LastNamed(actions, group, person)
    ensures StandingAfter(actions, group, before).person != "" ==> !StandingAfter(actions, group, before).dropped
    decreases |actions|
  {
    if actions != [] {
      var init, last := actions[..|actions| - 1], actions[|actions| - 1];
      StandingIff(init, group, before, person);
      LastNamedSnoc(init, last, group, person);
      assert init + [last] == actions;
    }
  }

  /** A group speaks for somebody exactly when the last action that named it or dropped it named it after them. */
  lemma GroupClaimsIff(s: Doc, actions: seq<Action>, j: nat, person: string)
    requires Grouped(s) && j < |s.groups| && s.groups[j].person == "" && person != ""
    ensures var t := Run(s, actions);
            j < |t.groups| && (Claims(t.groups[j]) && t.groups[j].person == person <==> LastNamed(actions, s.groups[j].id, person))
  {
    HistoryDecides(s, actions);
    StandingIff(actions, s.groups[j].id, StandingOf(s.groups[j]), person);
  }

  /** Proposals read off records instead of lists. */
  lemma ProposedByRecords(s: Doc, key: string)
    requires Grouped(s)
    ensures key in Proposed(s) <==> exists i, j :: RecordHolds(s, i, j, key)
  {
    ProposedIff(s, key);
    if j, k :| Holds(s, j, k, key) {
      var i := FaceIndex(s.faces, s.groups[j].faces[k]);
      assert RecordHolds(s, i, j, key);
    }
    if i, j :| RecordHolds(s, i, j, key) {
      assert s.faces[i].id in s.groups[j].faces;
      var k :| 0 <= k < |s.groups[j].faces| && s.groups[j].faces[k] == s.faces[i].id;
      FaceIndexAt(s.faces, i);
      assert Holds(s, j, k, key);
    }
  }

  /** Face `i` is in group `j`, which is named and not dropped, and the key is theirs. */
  ghost predicate RecordHolds(s: Doc, i: int, j: int, key: string) {
    && 0 <= i < |s.faces| && 0 <= j < |s.groups| && s.faces[i].group == s.groups[j].id
    && Claims(s.groups[j]) && key == Key(s.faces[i].photo, s.groups[j].person)
  }

  /** The same, from the starting document and the history alone. */
  ghost predicate HistoryHolds(s: Doc, actions: seq<Action>, i: int, j: int, key: string) {
    && 0 <= i < |s.faces| && 0 <= j < |s.groups|
    && GroupAfter(s.groups, actions, s.faces[i].id, s.faces[i].group) == s.groups[j].id
    && var st := StandingAfter(actions, s.groups[j].id, StandingOf(s.groups[j]));
       st.person != "" && !st.dropped && key == Key(s.faces[i].photo, st.person)
  }

  /** The label of every pair after any session on an unlabelled document, from the history alone. */
  lemma LabelsFromHistory(s: Doc, actions: seq<Action>, key: string)
    requires Grouped(s) && s.labels == map[] && s.removed == {}
    ensures var t := Run(Recompute(s), actions);
            match LastWord(actions, key, Silent)
            case Added => key in t.labels && t.labels[key] == HumanAdded
            case Removed => key !in t.labels
            case Silent => (key in t.labels <==> exists i, j :: HistoryHolds(s, actions, i, j, key))
                           && (key in t.labels ==> t.labels[key] == Cluster)
  {
    var r := Recompute(s);
    var t := Run(r, actions);
    FreshSession(s, actions, key);
    SameListsGrouped(s, r);
    RunKeepsGrouped(r, actions);
    HistoryDecides(r, actions);
    ProposedByRecords(t, key);
    assert forall i, j :: HistoryHolds(s, actions, i, j, key) <==> RecordHolds(t, i, j, key);
  }

  // -------------------------------------------------------------------------
  // People, their selfies and what is done, as functions of the history
  // -------------------------------------------------------------------------

  /** The faces last picked for a person, or those picked before. */
  function LastPick(actions: seq<Action>, person: string, before: seq<string>): (r: seq<string>) {
    if actions == [] then before
    else
      var last := actions[|actions| - 1];
      if last.SetSelfies? && last.person == person then last.selfies
      else LastPick(actions[..|actions| - 1], person, before)
  }

  /** What was last said about a task, if anything. */
  function LastMark(actions: seq<Action>, what: string, before: Option<bool>): (r: Option<bool>) {
    if actions == [] then before
    else
      var last := actions[|actions| - 1];
      if last.MarkDone? && last.what == what then Some(last.done) else LastMark(actions[..|actions| - 1], what, before)
  }

  function MarkOf(s: Doc, what: string): (r: Option<bool>) {
    if what in s.done then Some(s.done[what]) else None
  }

  /** The action makes somebody known: by naming a group of the album after them or picking their selfies. */
  predicate Introduces(groups: seq<Group>, a: Action, person: string) {
    match a
    case NameGroup(group, name) => IsGroup(groups, group) && Strip(name) == person && person != ""
    case SetSelfies(p, _) => p == person
    case _ => false
  }

  predicate Introduced(groups: seq<Group>, actions: seq<Action>, person: string) {
    exists k :: 0 <= k < |actions| && Introduces(groups, actions[k], person)
  }

  lemma IntroducedSnoc(groups: seq<Group>, actions: seq<Action>, person: string)
    requires actions != []
    ensures Introduced(groups, actions, person)
       <==> Introduced(groups, actions[..|actions| - 1], person) || Introduces(groups, actions[|actions| - 1], person)
  {
    var init := actions[..|actions| - 1];
    if Introduced(groups, init, person) {
      var k :| 0 <= k < |init| && Introduces(groups, init[k], person);
      assert Introduces(groups, actions[k], person);
    }
    if Introduced(groups, actions, person) && !Introduces(groups, actions[|actions| - 1], person) {
      var k :| 0 <= k < |actions| && Introduces(groups, actions[k], person);
      assert Introduces(groups, init[k], person);
    }
  }

  lemma PostPeople(s: Doc, a: Action, person: string, what: string)
    requires FacesKnown(s)
    ensures Chosen(Post(s, a), person) == LastPick([a], person, Chosen(s, person))
    ensures person in Post(s, a).people <==> person in s.people || Introduces(s.groups, a, person)
    ensures MarkOf(Post(s, a), what) == LastMark([a], what, MarkOf(s, what))
  {
    assert [a][..0] == [];
  }

  /** Naming groups, moving faces and labelling never touch the faces picked for anybody: after any history they are
      those of the last pick, for everybody known, and a task is as it was last marked. */
  lemma {:induction false} PeopleFromHistory(s: Doc, actions: seq<Action>, person: string, what: string)
    requires Grouped(s)
    ensures var t := Run(s, actions);
            && Chosen(t, person) == LastPick(actions, person, Chosen(s, person))
            && (person in t.people <==> person in s.people || Introduced(s.groups, actions, person))
            && MarkOf(t, what) == LastMark(actions, what, MarkOf(s, what))
    decreases |actions|
  {
    if actions != [] {
      var init, last := actions[..|actions| - 1], actions[|actions| - 1];
      PeopleFromHistory(s, init, person, what);
      HistoryDecides(s, init);
      PostPeople(Run(s, init), last, person, what);
      IntroducedSnoc(s.groups, actions, person);
      if last.NameGroup? {
        SameGroupIds(s.groups, Run(s, init).groups, last.group);
      }
    }
  }

  // -------------------------------------------------------------------------
  // Keys and pairs
  // -------------------------------------------------------------------------

  lemma {:induction false} HeadOf(a: string, rest: string)
    requires '|' !in a && (rest == "" || rest[0] == '|')
    ensures Head(a + rest) == a
  {
    if a == "" {
      assert a + rest == rest;
    } else {
      assert a[0] in a && forall c :: c in a[1..] ==> c in a;
      HeadOf(a[1..], rest);
      assert (a + rest)[1..] == a[1..] + rest;
    }
  }

  /** Splitting a key gives back the pair exactly when neither id has a bar. */
  lemma SplitKeyIff(photo: string, person: string)
    ensures PhotoField(Key(photo, person)) == photo && PersonField(Key(photo, person)) == person
       <==> '|' !in photo && '|' !in person
  {
    if '|' !in photo && '|' !in person {
      var k := Key(photo, person);
      assert k == photo + ("|" + person);
      HeadOf(photo, "|" + person);
      assert k[|photo| + 1..] == person == person + "";
      HeadOf(person, "");
    }
  }

  /** Joining with a bar loses nothing when the photograph's id has none. */
  lemma KeyInjective(photo: string, person: string, photo2: string, person2: string)
    requires '|' !in photo && '|' !in photo2 && Key(photo, person) == Key(photo2, person2)
    ensures photo == photo2 && person == person2
  {
    var k := Key(photo, person);
    assert k == photo + ("|" + person) && k == photo2 + ("|" + person2);
    HeadOf(photo, "|" + person);
    HeadOf(photo2, "|" + person2);
    assert person == k[|photo| + 1..] && person2 == k[|photo| + 1..];
  }

  /** The first bar splits a key anywhere it stands: what follows it in the photograph's id moves over. */
  lemma BarInPhoto(photo: string, person: string)
    requires '|' in photo
    ensures exists a, b :: (a, b) != (photo, person) && Key(a, b) == Key(photo, person)
  {
    var a, rest := Head(photo), photo[|Head(photo)| + 1..];
    var b := rest + "|" + person;
    assert '|' !in a;
    assert Key(a, b) == Key(photo, person) by {
      assert photo == a + "|" + rest;
    }
    assert (a, b) != (photo, person);
  }

  lemma BarInPerson(photo: string, person: string)
    requires '|' in person
    ensures exists a, b :: (a, b) != (photo, person) && Key(a, b) == Key(photo, person)
  {
    var head, b := Head(person), person[|Head(person)| + 1..];
    var a := photo + "|" + head;
    assert Key(a, b) == Key(photo, person) by {
      assert person == head + "|" + b;
    }
    assert |a| > |photo|;
    assert (a, b) != (photo, person);
  }

  lemma OnlyBar(photo: string, person: string, i: nat)
    requires '|' !in photo && '|' !in person && i < |Key(photo, person)| && Key(photo, person)[i] == '|'
    ensures i == |photo|
  {
  }

  lemma NoBarNoTwin(photo: string, person: string, a: string, b: string)
    requires '|' !in photo && '|' !in person && Key(a, b) == Key(photo, person)
    ensures a == photo && b == person
  {
    OnlyBar(photo, person, |a|);
    PartsOf(a, b);
    PartsOf(photo, person);
  }

  lemma PartsOf(photo: string, person: string)
    ensures Key(photo, person)[..|photo|] == photo && Key(photo, person)[|photo| + 1..] == person
  {
  }

  /** A pair shares its label with another exactly when one of its ids has a bar. */
  lemma KeySharedIff(photo: string, person: string)
    ensures (exists a, b :: (a, b) != (photo, person) && Key(a, b) == Key(photo, person)) <==> '|' in photo || '|' in person
  {
    if '|' in photo {
      BarInPhoto(photo, person);
    } else if '|' in person {
      BarInPerson(photo, person);
    } else {
      forall a, b | Key(a, b) == Key(photo, person) ensures (a, b) == (photo, person) {
        NoBarNoTwin(photo, person, a, b);
      }
    }
  }
}
