/** From an album through a labelling session to a loaded dataset. */
module LabelSession {
  import opened Wrappers
  import opened Labelling
  import opened LabellingFacts
  import LabelInit
  import Dataset
  import LabelExport
  import opened LabelExportFacts

  /** A document as initialising leaves it. */
  ghost predicate FreshAlbum(s: Doc) {
    && Grouped(s) && s.labels == map[] && s.removed == {}
    && CleanPhotos(s.photos)
    && (forall i :: 0 <= i < |s.faces| ==> s.faces[i].photo in s.photos)
    && (forall j :: 0 <= j < |s.groups| ==> s.groups[j].person == "")
  }

  lemma CleanNames(n: nat)
    ensures CleanId(LabelInit.PhotoName(n))
  {
    LabelInit.NumberedInjective('p', 5, n, n);
    var id := LabelInit.PhotoName(n);
    var digits := LabelInit.Pad(LabelInit.Decimal(n), 5);
    PadNonEmpty(LabelInit.Decimal(n), 5);
    assert id[|id| - 1] == digits[|digits| - 1] && digits[|digits| - 1] in digits;
  }

  lemma {:induction false} PadNonEmpty(s: string, width: nat)
    requires s != "" && forall c :: c in s ==> '0' <= c <= '9'
    ensures LabelInit.Pad(s, width) != ""
    decreases if |s| < width then width - |s| else 0
  {
    if |s| < width {
      PadNonEmpty("0" + s, width);
    }
  }

  /** What initialising promises is what a session needs. */
  lemma InitIsFresh(s: Doc, photoCount: nat, photoOf: seq<nat>)
    requires Grouped(s) && s.labels == map[] && s.removed == {}
    requires s.photos == LabelInit.AlbumPhotos(photoCount) && SameRecords(LabelInit.AlbumFaces(photoOf), s.faces)
    requires forall k :: 0 <= k < |photoOf| ==> photoOf[k] < photoCount
    requires forall j :: 0 <= j < |s.groups| ==> s.groups[j].person == ""
    ensures FreshAlbum(s)
  {
    forall a: nat, b: nat | a < b < |s.photos| ensures s.photos[a] != s.photos[b] {
      LabelInit.NumberedInjective('p', 5, a, b);
    }
    forall a: nat | a < |s.photos| ensures CleanId(s.photos[a]) {
      CleanNames(a);
    }
    forall i | 0 <= i < |s.faces| ensures s.faces[i].photo in s.photos {
      assert s.photos[photoOf[i]] == s.faces[i].photo;
    }
  }

  /** Hand-added labels name known photographs and people; group names have no bar. */
  ghost predicate CleanAction(a: Action, photos: seq<string>) {
    match a
    case AddLabel(photo, person) => photo in photos && CleanId(person)
    case NameGroup(_, person) => '|' !in person
    case _ => true
  }

  ghost predicate CleanSession(actions: seq<Action>, photos: seq<string>) {
    forall k :: 0 <= k < |actions| ==> CleanAction(actions[k], photos)
  }

  lemma {:induction false} StripWithin(s: string)
    ensures forall c :: c in Strip(s) ==> c in s
    decreases |s|
  {
    if s != "" {
      if IsSpace(s[0]) {
        StripWithin(s[1..]);
      } else if IsSpace(s[|s| - 1]) {
        StripWithin(s[..|s| - 1]);
      }
    }
  }

  /** A group's name, if it got one, is clean. */
  lemma {:induction false} StandingClean(actions: seq<Action>, photos: seq<string>, group: string, before: Standing)
    requires CleanSession(actions, photos) && before.person == ""
    ensures var p := StandingAfter(actions, group, before).person; p == "" || CleanId(p)
    decreases |actions|
  {
    if actions != [] {
      var init, last := actions[..|actions| - 1], actions[|actions| - 1];
      StandingClean(init, photos, group, before);
      assert CleanAction(last, photos);
      if last.NameGroup? {
        StripWithin(last.person);
      }
    }
  }

  lemma {:induction false} AddedByAction(actions: seq<Action>, photos: seq<string>, key: string)
    requires CleanSession(actions, photos) && CleanPhotos(photos) && LastWord(actions, key, Silent) == Added
    ensures Tidy(key) && PhotoField(key) in photos
    decreases |actions|
  {
    var init, last := actions[..|actions| - 1], actions[|actions| - 1];
    assert CleanAction(last, photos);
    if Says(last, key) == Added {
      KeyIsTidy(last.photo, last.person);
    } else {
      AddedByAction(init, photos, key);
    }
  }

  lemma KeyIsTidy(photo: string, person: string)
    requires CleanId(photo) && CleanId(person)
    ensures Tidy(Key(photo, person)) && PhotoField(Key(photo, person)) == photo && PersonField(Key(photo, person)) == person
  {
    SplitKeyIff(photo, person);
  }

  ghost predicate GoodLabel(s: Doc, key: string) {
    Tidy(key) && PhotoField(key) in s.photos
  }

  /** After a clean session every label is of a known photograph and a clean name. */
  lemma SessionLabels(s: Doc, actions: seq<Action>, key: string)
    requires FreshAlbum(s) && CleanSession(actions, s.photos)
    requires key in Run(Recompute(s), actions).labels
    ensures GoodLabel(s, key)
  {
    LabelsFromHistory(s, actions, key);
    match LastWord(actions, key, Silent) {
      case Added => AddedByAction(actions, s.photos, key);
      case Silent =>
        var i, j :| HistoryHolds(s, actions, i, j, key);
        StandingClean(actions, s.photos, s.groups[j].id, StandingOf(s.groups[j]));
        var person := StandingAfter(actions, s.groups[j].id, StandingOf(s.groups[j])).person;
        assert s.faces[i].photo in s.photos;
        KeyIsTidy(s.faces[i].photo, person);
      case Removed =>
        assert false;
    }
  }

  lemma SessionGroups(s: Doc, actions: seq<Action>, j: nat)
    requires FreshAlbum(s) && CleanSession(actions, s.photos) && j < |Run(Recompute(s), actions).groups|
    ensures var p := Run(Recompute(s), actions).groups[j].person; p == "" || CleanId(p)
  {
    var r := Recompute(s);
    SameListsGrouped(s, r);
    HistoryDecides(r, actions);
    StandingClean(actions, s.photos, r.groups[j].id, StandingOf(r.groups[j]));
  }

  /** Reopening or exporting a session's document recomputes nothing new. */
  lemma {:induction false} RunIsSettled(s: Doc, actions: seq<Action>)
    requires FacesKnown(s)
    ensures Recompute(Run(Recompute(s), actions)) == Run(Recompute(s), actions)
    decreases |actions|
  {
    if actions == [] {
      RecomputeIdempotent(s);
    } else {
      var init, last := actions[..|actions| - 1], actions[|actions| - 1];
      RunIsSettled(s, init);
      var a := Run(Recompute(s), init);
      if Apply(a, last).Some? {
        ApplyKnows(a, last);
        RecomputeIdempotent(Apply(a, last).value);
      }
    }
  }

  lemma PostPhotos(s: Doc, a: Action)
    requires FacesKnown(s)
    ensures Post(s, a).photos == s.photos
  {
    if Apply(s, a).Some? {
      ApplyRecords(s, a);
    }
  }

  lemma {:induction false} PhotosStay(s: Doc, actions: seq<Action>)
    requires FacesKnown(s)
    ensures Run(s, actions).photos == s.photos
    decreases |actions|
  {
    if actions != [] {
      PhotosStay(s, actions[..|actions| - 1]);
      PostPhotos(Run(s, actions[..|actions| - 1]), actions[|actions| - 1]);
    }
  }

  lemma SessionNames(s: Doc, actions: seq<Action>, person: string)
    requires FreshAlbum(s) && CleanSession(actions, s.photos)
    requires person in LabelExport.Names(Run(Recompute(s), actions))
    ensures CleanId(person)
  {
    var t := Run(Recompute(s), actions);
    if j :| 0 <= j < |t.groups| && Claims(t.groups[j]) && t.groups[j].person == person {
      SessionGroups(s, actions, j);
    } else {
      var k :| k in t.labels && PersonField(k) == person;
      SessionLabels(s, actions, k);
    }
  }

  lemma SessionKnown(s: Doc, actions: seq<Action>, g: LabelExport.Gathered)
    requires FreshAlbum(s) && CleanSession(actions, s.photos)
    ensures LabelsKnown(Run(Recompute(s), actions), g)
  {
    var t := Run(Recompute(s), actions);
    PhotosStay(Recompute(s), actions);
    forall k | k in LabelExport.Remaining(t.labels, g.held)
      ensures Strip(PhotoField(k)) in LabelExport.KeptPhotos(t.photos, g.held)
    {
      SessionLabels(s, actions, k);
    }
  }

  /** Whatever a clean session exports, the loader accepts; its truth is the session's labels outside
      the held-out photographs; and the manifest's counts add up to it. */
  lemma SessionLoads(s: Doc, actions: seq<Action>, disk: LabelExport.Disk, id: string)
    requires FreshAlbum(s) && CleanSession(actions, s.photos)
    requires LabelExport.Lists(disk.sorted) && RealPaths(disk)
    requires LabelExport.Export(Run(Recompute(s), actions), disk, id).Written?
    ensures var t := Run(Recompute(s), actions);
            var files := LabelExport.Export(t, disk, id).files;
            && Dataset.Load(files).Ok?
            && (forall photo, person :: InTruth(Dataset.Load(files).value.truth, photo, person)
                  <==> Key(photo, person) in t.labels && '|' !in photo && photo !in LabelExport.CutPhotos(t, disk))
            && files.manifest.fromClusters + files.manifest.humanAdded == |Appearances(Dataset.Load(files).value.truth)|
  {
    var t := Run(Recompute(s), actions);
    RunIsSettled(s, actions);
    PhotosStay(Recompute(s), actions);
    var named := disk.sorted(LabelExport.Names(t));
    forall p | p in LabelExport.Names(t) ensures Strip(p) != "" {
      SessionNames(s, actions, p);
    }
    forall k | k in t.labels ensures Tidy(k) {
      SessionLabels(s, actions, k);
    }
    SessionKnown(s, actions, LabelExport.Gather(t, disk, named, |named|));
    NobodyBlank(t, disk, id);
    LoaderAcceptsIff(t, disk, id);
    forall photo, person
      ensures InTruth(Dataset.Load(LabelExport.Export(t, disk, id).files).value.truth, photo, person)
         <==> Key(photo, person) in t.labels && '|' !in photo && photo !in LabelExport.CutPhotos(t, disk)
    {
      LoadedTruth(t, disk, id, photo, person);
    }
    ManifestMatchesTruth(t, disk, id);
  }

  // -------------------------------------------------------------------------
  // What the manifest of a session counts
  // -------------------------------------------------------------------------

  /** Labels left in the evaluation on which the last explicit word is this. */
  ghost function LeftOf(t: Doc, held: set<string>, actions: seq<Action>, word: Verdict): (r: set<string>) {
    set k | k in t.labels && PhotoField(k) !in held && LastWord(actions, k, Silent) == word
  }

  lemma SourceIsWord(s: Doc, actions: seq<Action>, key: string)
    requires FreshAlbum(s)
    ensures var t := Run(Recompute(s), actions);
            && (key in t.labels && t.labels[key] == HumanAdded <==> LastWord(actions, key, Silent) == Added)
            && (key in t.labels && t.labels[key] == Cluster <==> key in t.labels && LastWord(actions, key, Silent) == Silent)
            && (key in t.removed <==> LastWord(actions, key, Silent) == Removed)
  {
    FreshSession(s, actions, key);
  }

  lemma LeftBySource(s: Doc, actions: seq<Action>, held: set<string>)
    requires FreshAlbum(s)
    ensures var t := Run(Recompute(s), actions);
            && LabelExport.LabelsLeft(t, held, HumanAdded) == LeftOf(t, held, actions, Added)
            && LabelExport.LabelsLeft(t, held, Cluster) == LeftOf(t, held, actions, Silent)
  {
    var t := Run(Recompute(s), actions);
    forall k ensures k in LabelExport.LabelsLeft(t, held, HumanAdded) <==> k in LeftOf(t, held, actions, Added) {
      SourceIsWord(s, actions, k);
    }
    forall k ensures k in LabelExport.LabelsLeft(t, held, Cluster) <==> k in LeftOf(t, held, actions, Silent) {
      SourceIsWord(s, actions, k);
    }
  }

  /** Of any session on an initialised album, the manifest counts outside the held-out photographs the labels whose
      last explicit action is an add and those no action ever decided, and beside them the pairs last removed and
      the photographs cut from; and the dataset is ready exactly when an added label is left. */
  lemma SessionManifest(s: Doc, actions: seq<Action>, disk: LabelExport.Disk, id: string)
    requires FreshAlbum(s) && LabelExport.Lists(disk.sorted)
    requires LabelExport.Export(Run(Recompute(s), actions), disk, id).Written?
    ensures var t := Run(Recompute(s), actions);
            var r := LabelExport.Export(t, disk, id);
            var held := LabelExport.CutPhotos(t, disk);
            && r.files.manifest.humanAdded == |LeftOf(t, held, actions, Added)|
            && r.files.manifest.fromClusters == |LeftOf(t, held, actions, Silent)|
            && r.files.manifest.humanRemoved == |t.removed|
            && (forall k :: k in t.removed <==> LastWord(actions, k, Silent) == Removed)
            && r.files.manifest.heldOutPhotos == |held|
            && (r.ready <==> exists k :: LastWord(actions, k, Silent) == Added && PhotoField(k) !in held)
  {
    var t := Run(Recompute(s), actions);
    var held := LabelExport.CutPhotos(t, disk);
    RunIsSettled(s, actions);
    LabelExport.ManifestIs(t, disk, id);
    LeftBySource(s, actions, held);
    forall k
      ensures k in t.removed <==> LastWord(actions, k, Silent) == Removed
      ensures k in t.labels && t.labels[k] == HumanAdded <==> LastWord(actions, k, Silent) == Added
    {
      SourceIsWord(s, actions, k);
    }
  }
}
