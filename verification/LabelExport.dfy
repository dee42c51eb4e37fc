/** Exporting a labelled album: enrolment images, the photographs held out for them, and the rows left. */
module LabelExport {
  import opened Wrappers
  import opened Labelling
  import opened Dataset
  import LabelInit

  datatype Enrolment = Enrolment(paths: seq<string>, held: set<string>)

  datatype Problem = NoImage(person: string) | NoAppearance(person: string)

  datatype Outcome = NobodyNamed | Refused(problems: seq<Problem>) | Written(files: Files, ready: bool)

  /** What lies outside the document: the image files a person's folder holds, where a photograph is,
      and the library's sort, of which only `Lists` is used. */
  datatype Disk = Disk(folder: string -> seq<string>, pathOf: string -> string, sorted: set<string> -> seq<string>)

  /** Sorting lists every element once. */
  ghost predicate Lists(sorted: set<string> -> seq<string>) {
    forall all :: NoRepeats(sorted(all)) && forall x :: x in sorted(all) <==> x in all
  }

  // -------------------------------------------------------------------------
  // Enrolment images
  // -------------------------------------------------------------------------

  function CutPath(person: string, n: nat): (r: string) {
    "selfies/" + person + "-" + LabelInit.Decimal(n) + ".jpg"
  }

  /** The cuts from the first `n` chosen faces; unknown faces are passed over. */
  function Cuts(faces: seq<Face>, person: string, chosen: seq<string>, n: nat): (r: Enrolment)
    requires n <= |chosen|
  {
    if n == 0 then Enrolment([], {})
    else
      var before := Cuts(faces, person, chosen, n - 1);
      if !IsFace(faces, chosen[n - 1]) then before
      else Enrolment(before.paths + [CutPath(person, n)], before.held + {PhotoOf(faces, chosen[n - 1])})
  }

  function Enrol(s: Doc, disk: Disk, person: string): (r: Enrolment) {
    if disk.folder(person) != [] then Enrolment(disk.folder(person), {})
    else Cuts(s.faces, person, Chosen(s, person), |Chosen(s, person)|)
  }

  // -------------------------------------------------------------------------
  // Everybody named
  // -------------------------------------------------------------------------

  function Names(s: Doc): (r: set<string>) {
    (set i | 0 <= i < |s.groups| && Claims(s.groups[i]) :: s.groups[i].person) + (set k | k in s.labels :: PersonField(k))
  }

  function SelfieRowsOf(person: string, paths: seq<string>): (r: seq<SelfieRow>)
    ensures |r| == |paths| && forall i :: 0 <= i < |r| ==> r[i] == SelfieRow(person, paths[i])
  {
    seq(|paths|, i requires 0 <= i < |paths| => SelfieRow(person, paths[i]))
  }

  /** What the first `n` people add up to. */
  datatype Gathered = Gathered(selfies: seq<SelfieRow>, held: set<string>, problems: seq<Problem>)

  function AddPerson(g: Gathered, person: string, e: Enrolment): (r: Gathered) {
    if e.paths == [] then g.(problems := g.problems + [NoImage(person)])
    else g.(selfies := g.selfies + SelfieRowsOf(person, e.paths), held := g.held + e.held)
  }

  function Gather(s: Doc, disk: Disk, named: seq<string>, n: nat): (r: Gathered)
    requires n <= |named|
  {
    if n == 0 then Gathered([], {}, [])
    else AddPerson(Gather(s, disk, named, n - 1), named[n - 1], Enrol(s, disk, named[n - 1]))
  }

  // -------------------------------------------------------------------------
  // Rows
  // -------------------------------------------------------------------------

  function Remaining(labels: map<string, Source>, held: set<string>): (r: map<string, Source>) {
    map k | k in labels && PhotoField(k) !in held :: labels[k]
  }

  function KeptPhotos(photos: seq<string>, held: set<string>): (r: seq<string>)
    ensures forall p :: p in r <==> p in photos && p !in held
  {
    if photos == [] then []
    else
      assert photos == photos[..|photos| - 1] + [photos[|photos| - 1]];
      KeptPhotos(photos[..|photos| - 1], held) + if photos[|photos| - 1] in held then [] else [photos[|photos| - 1]]
  }

  function PhotoRows(photos: seq<string>, pathOf: string -> string): (r: seq<PhotoRow>)
    ensures |r| == |photos| && forall i :: 0 <= i < |r| ==> r[i] == PhotoRow(photos[i], pathOf(photos[i]))
  {
    seq(|photos|, i requires 0 <= i < |photos| => PhotoRow(photos[i], pathOf(photos[i])))
  }

  function LabelRows(keys: seq<string>): (r: seq<LabelRow>)
    ensures |r| == |keys| && forall i :: 0 <= i < |r| ==> r[i] == LabelRow(PhotoField(keys[i]), PersonField(keys[i]))
  {
    seq(|keys|, i requires 0 <= i < |keys| => LabelRow(PhotoField(keys[i]), PersonField(keys[i])))
  }

  function CountOf(labels: map<string, Source>, keys: seq<string>, source: Source): (n: nat)
    requires forall k :: k in keys ==> k in labels
  {
    if keys == [] then 0
    else
      assert keys[|keys| - 1] in keys;
      CountOf(labels, keys[..|keys| - 1], source) + if labels[keys[|keys| - 1]] == source then 1 else 0
  }

  predicate Appears(rows: seq<LabelRow>, person: string) {
    exists i :: 0 <= i < |rows| && rows[i].person == person
  }

  function Absent(named: seq<string>, rows: seq<LabelRow>, n: nat): (r: seq<Problem>)
    requires n <= |named|
  {
    if n == 0 then []
    else Absent(named, rows, n - 1) + if Appears(rows, named[n - 1]) then [] else [NoAppearance(named[n - 1])]
  }

  // -------------------------------------------------------------------------
  // cmd_export
  // -------------------------------------------------------------------------

  function FilesOf(s: Doc, disk: Disk, id: string, g: Gathered): (r: Files)
    requires Lists(disk.sorted)
  {
    var labels := Remaining(s.labels, g.held);
    var keys := disk.sorted(labels.Keys);
    Files(Manifest(id, "real", CountOf(labels, keys, Cluster), CountOf(labels, keys, HumanAdded), |s.removed|, |g.held|),
          PhotoRows(KeptPhotos(s.photos, g.held), disk.pathOf), LabelRows(keys), g.selfies)
  }

  /** On a recomputed document. */
  function Exported(s: Doc, disk: Disk, id: string): (r: Outcome)
    requires Lists(disk.sorted)
  {
    var named := disk.sorted(Names(s));
    if named == [] then NobodyNamed
    else
      var g := Gather(s, disk, named, |named|);
      var files := FilesOf(s, disk, id, g);
      var problems := g.problems + Absent(named, files.labels, |named|);
      if problems != [] then Refused(problems) else Written(files, files.manifest.humanAdded > 0)
  }

  function Export(s: Doc, disk: Disk, id: string): (r: Outcome)
    requires FacesKnown(s) && Lists(disk.sorted)
  {
    Exported(Recompute(s), disk, id)
  }

  // -------------------------------------------------------------------------
  // What is written, in terms of the document
  // -------------------------------------------------------------------------

  /** Face `k` of the person's choice is one the album knows, and the person has no image files. */
  ghost predicate CutFrom(s: Doc, disk: Disk, person: string, k: nat) {
    disk.folder(person) == [] && k < |Chosen(s, person)| && IsFace(s.faces, Chosen(s, person)[k])
  }

  ghost predicate CutFor(s: Doc, disk: Disk, person: string, photo: string) {
    exists k: nat :: CutFrom(s, disk, person, k) && photo == PhotoOf(s.faces, Chosen(s, person)[k])
  }

  /** The album's photographs the enrolment images of everybody named are cut from. */
  ghost function CutPhotos(s: Doc, disk: Disk): (r: set<string>) {
    set i | 0 <= i < |s.faces| && (exists person :: person in Names(s) && CutFor(s, disk, person, s.faces[i].photo)) :: s.faces[i].photo
  }

  /** The labels of one source left in the evaluation. */
  ghost function LabelsLeft(s: Doc, held: set<string>, source: Source): (r: set<string>) {
    set k | k in s.labels && PhotoField(k) !in held && s.labels[k] == source
  }

  /** The manifest counts what it says it counts, and the dataset is ready exactly when a label added by hand is left. */
  ghost predicate ManifestSays(s: Doc, disk: Disk, manifest: Manifest, ready: bool) {
    var held := CutPhotos(s, disk);
    && manifest.humanAdded == |LabelsLeft(s, held, HumanAdded)| && manifest.fromClusters == |LabelsLeft(s, held, Cluster)|
    && manifest.humanRemoved == |s.removed| && manifest.heldOutPhotos == |held|
    && (ready <==> exists k :: k in s.labels && PhotoField(k) !in held && s.labels[k] == HumanAdded)
  }

  lemma {:induction false} CutsHold(s: Doc, disk: Disk, person: string, n: nat, photo: string)
    requires n <= |Chosen(s, person)| && disk.folder(person) == []
    ensures photo in Cuts(s.faces, person, Chosen(s, person), n).held
       <==> exists k: nat :: k < n && CutFrom(s, disk, person, k) && photo == PhotoOf(s.faces, Chosen(s, person)[k])
    ensures Cuts(s.faces, person, Chosen(s, person), n).paths == [] ==> Cuts(s.faces, person, Chosen(s, person), n).held == {}
  {
    if n > 0 {
      CutsHold(s, disk, person, n - 1, photo);
    }
  }

  lemma EnrolHolds(s: Doc, disk: Disk, person: string, photo: string)
    ensures photo in Enrol(s, disk, person).held <==> CutFor(s, disk, person, photo)
    ensures Enrol(s, disk, person).paths == [] ==> Enrol(s, disk, person).held == {}
  {
    if disk.folder(person) == [] {
      CutsHold(s, disk, person, |Chosen(s, person)|, photo);
    }
  }

  lemma {:induction false} GatherHolds(s: Doc, disk: Disk, named: seq<string>, n: nat, photo: string)
    requires n <= |named|
    ensures photo in Gather(s, disk, named, n).held <==> exists i: nat :: i < n && CutFor(s, disk, named[i], photo)
  {
    if n > 0 {
      GatherHolds(s, disk, named, n - 1, photo);
      EnrolHolds(s, disk, named[n - 1], photo);
    }
  }

  lemma CutPhotosIff(s: Doc, disk: Disk, photo: string)
    ensures photo in CutPhotos(s, disk) <==> exists person :: person in Names(s) && CutFor(s, disk, person, photo)
  {
    if person :| person in Names(s) && CutFor(s, disk, person, photo) {
      var k: nat :| CutFrom(s, disk, person, k) && photo == PhotoOf(s.faces, Chosen(s, person)[k]);
      var i := FaceIndex(s.faces, Chosen(s, person)[k]);
      assert s.faces[i].photo == photo;
    }
  }

  lemma HeldIff(s: Doc, disk: Disk, named: seq<string>, photo: string)
    requires forall p :: p in named <==> p in Names(s)
    ensures photo in Gather(s, disk, named, |named|).held <==> photo in CutPhotos(s, disk)
  {
    GatherHolds(s, disk, named, |named|, photo);
    CutPhotosIff(s, disk, photo);
    assert forall i: nat :: i < |named| ==> named[i] in named;
  }

  /** What is held out is exactly the photographs cut from. */
  lemma HeldAre(s: Doc, disk: Disk, named: seq<string>)
    requires forall p :: p in named <==> p in Names(s)
    ensures Gather(s, disk, named, |named|).held == CutPhotos(s, disk)
  {
    forall photo ensures photo in Gather(s, disk, named, |named|).held <==> photo in CutPhotos(s, disk) {
      HeldIff(s, disk, named, photo);
    }
  }

  ghost function OfSource(labels: map<string, Source>, keys: seq<string>, source: Source): (r: set<string>) {
    set k | k in keys && k in labels && labels[k] == source
  }

  lemma OfSourceSnoc(labels: map<string, Source>, keys: seq<string>, key: string, source: Source)
    requires key in labels
    ensures OfSource(labels, keys + [key], source) == OfSource(labels, keys, source) + if labels[key] == source then {key} else {}
  {
  }

  lemma {:induction false} CountIs(labels: map<string, Source>, keys: seq<string>, source: Source)
    requires NoRepeats(keys) && forall k :: k in keys ==> k in labels
    ensures CountOf(labels, keys, source) == |OfSource(labels, keys, source)|
    decreases |keys|
  {
    if keys != [] {
      var init, last := keys[..|keys| - 1], keys[|keys| - 1];
      assert last in keys;
      CountIs(labels, init, source);
      OfSourceSnoc(labels, init, last, source);
      assert keys == init + [last];
      assert last !in init;
    }
  }

  lemma LeftAre(s: Doc, held: set<string>, keys: seq<string>, source: Source)
    requires forall k :: k in keys <==> k in Remaining(s.labels, held)
    ensures OfSource(Remaining(s.labels, held), keys, source) == LabelsLeft(s, held, source)
  {
  }

  lemma LeftCount(s: Doc, disk: Disk, held: set<string>, source: Source)
    requires Lists(disk.sorted)
    ensures var labels := Remaining(s.labels, held);
            CountOf(labels, disk.sorted(labels.Keys), source) == |LabelsLeft(s, held, source)|
  {
    var labels := Remaining(s.labels, held);
    CountIs(labels, disk.sorted(labels.Keys), source);
    LeftAre(s, held, disk.sorted(labels.Keys), source);
  }

  lemma SomeLeft(s: Doc, held: set<string>)
    ensures |LabelsLeft(s, held, HumanAdded)| > 0 <==> exists k :: k in s.labels && PhotoField(k) !in held && s.labels[k] == HumanAdded
  {
    if k :| k in s.labels && PhotoField(k) !in held && s.labels[k] == HumanAdded {
      assert k in LabelsLeft(s, held, HumanAdded);
    }
    if |LabelsLeft(s, held, HumanAdded)| > 0 {
      var k :| k in LabelsLeft(s, held, HumanAdded);
    }
  }

  lemma ManifestIs(s: Doc, disk: Disk, id: string)
    requires Lists(disk.sorted) && Exported(s, disk, id).Written?
    ensures ManifestSays(s, disk, Exported(s, disk, id).files.manifest, Exported(s, disk, id).ready)
  {
    var held := CutPhotos(s, disk);
    HeldAre(s, disk, disk.sorted(Names(s)));
    LeftCount(s, disk, held, HumanAdded);
    LeftCount(s, disk, held, Cluster);
    SomeLeft(s, held);
  }

  // -------------------------------------------------------------------------
  // Images, rows and complaints
  // -------------------------------------------------------------------------

  /** The person has an image: a file of their own, or a face to cut one from. */
  ghost predicate HasImage(s: Doc, disk: Disk, person: string) {
    disk.folder(person) != [] || exists k: nat :: CutFrom(s, disk, person, k)
  }

  /** Some label left in the evaluation is the person's. */
  ghost predicate HasAppearance(s: Doc, disk: Disk, person: string) {
    exists k :: k in s.labels && PhotoField(k) !in CutPhotos(s, disk) && PersonField(k) == person
  }

  /** A cut is named after the person and the place the face has among those chosen. */
  ghost predicate CutNamed(s: Doc, disk: Disk, person: string, path: string) {
    exists k: nat :: CutFrom(s, disk, person, k) && path == "selfies/" + person + "-" + LabelInit.Decimal(k + 1) + ".jpg"
  }

  ghost predicate ImagesAre(s: Doc, disk: Disk, person: string, paths: seq<string>, held: set<string>) {
    && (disk.folder(person) != [] ==> paths == disk.folder(person) && held == {})
    && (disk.folder(person) == [] ==> forall path :: path in paths <==> CutNamed(s, disk, person, path))
    && (forall photo :: photo in held <==> CutFor(s, disk, person, photo))
    && (paths != [] <==> HasImage(s, disk, person))
  }

  lemma {:induction false} CutsNamed(s: Doc, disk: Disk, person: string, n: nat, path: string)
    requires n <= |Chosen(s, person)| && disk.folder(person) == []
    ensures path in Cuts(s.faces, person, Chosen(s, person), n).paths
       <==> exists k: nat :: k < n && CutFrom(s, disk, person, k) && path == "selfies/" + person + "-" + LabelInit.Decimal(k + 1) + ".jpg"
  {
    if n > 0 {
      CutsNamed(s, disk, person, n - 1, path);
      var before := Cuts(s.faces, person, Chosen(s, person), n - 1);
      assert CutFrom(s, disk, person, n - 1) <==> IsFace(s.faces, Chosen(s, person)[n - 1]);
      assert CutPath(person, n) == "selfies/" + person + "-" + LabelInit.Decimal(n - 1 + 1) + ".jpg";
    }
  }

  lemma EnrolIs(s: Doc, disk: Disk, person: string)
    ensures ImagesAre(s, disk, person, Enrol(s, disk, person).paths, Enrol(s, disk, person).held)
  {
    forall photo ensures photo in Enrol(s, disk, person).held <==> CutFor(s, disk, person, photo) {
      EnrolHolds(s, disk, person, photo);
    }
    if disk.folder(person) == [] {
      var paths := Enrol(s, disk, person).paths;
      forall path ensures path in paths <==> CutNamed(s, disk, person, path) {
        CutsNamed(s, disk, person, |Chosen(s, person)|, path);
        assert forall k: nat :: CutFrom(s, disk, person, k) ==> k < |Chosen(s, person)|;
      }
      if paths != [] {
        assert paths[0] in paths;
      }
      if k: nat :| CutFrom(s, disk, person, k) {
        assert CutNamed(s, disk, person, "selfies/" + person + "-" + LabelInit.Decimal(k + 1) + ".jpg");
      }
    }
  }

  lemma {:induction false} ImageProblems(s: Doc, disk: Disk, named: seq<string>, n: nat, problem: Problem)
    requires n <= |named|
    ensures problem in Gather(s, disk, named, n).problems
       <==> problem.NoImage? && exists i :: 0 <= i < n && named[i] == problem.person && !HasImage(s, disk, named[i])
  {
    if n > 0 {
      ImageProblems(s, disk, named, n - 1, problem);
      EnrolIs(s, disk, named[n - 1]);
    }
  }

  lemma {:induction false} AppearanceProblems(named: seq<string>, rows: seq<LabelRow>, n: nat, problem: Problem)
    requires n <= |named|
    ensures problem in Absent(named, rows, n)
       <==> problem.NoAppearance? && exists i :: 0 <= i < n && named[i] == problem.person && !Appears(rows, named[i])
  {
    if n > 0 {
      AppearanceProblems(named, rows, n - 1, problem);
    }
  }

  lemma AppearsIff(s: Doc, disk: Disk, person: string)
    requires Lists(disk.sorted)
    ensures Appears(LabelRows(disk.sorted(Remaining(s.labels, CutPhotos(s, disk)).Keys)), person) <==> HasAppearance(s, disk, person)
  {
    var keys := disk.sorted(Remaining(s.labels, CutPhotos(s, disk)).Keys);
    if i :| 0 <= i < |keys| && LabelRows(keys)[i].person == person {
      assert keys[i] in keys;
    }
    if k :| k in s.labels && PhotoField(k) !in CutPhotos(s, disk) && PersonField(k) == person {
      assert k in keys;
      var i :| 0 <= i < |keys| && keys[i] == k;
      assert LabelRows(keys)[i].person == person;
    }
  }

  ghost predicate Complained(s: Doc, disk: Disk, problem: Problem) {
    problem.person in Names(s)
    && if problem.NoImage? then !HasImage(s, disk, problem.person) else !HasAppearance(s, disk, problem.person)
  }

  /** Everybody named and without an image, and everybody named and without a label left. */
  ghost predicate ProblemsAre(s: Doc, disk: Disk, problems: seq<Problem>) {
    forall problem :: problem in problems <==> Complained(s, disk, problem)
  }

  /** A photograph left in the evaluation, where it lies. */
  ghost predicate KeptRow(s: Doc, disk: Disk, row: PhotoRow) {
    row.photo in s.photos && row.photo !in CutPhotos(s, disk) && row.path == disk.pathOf(row.photo)
  }

  /** Nobody is named, or somebody cannot be evaluated, or everybody can. */
  ghost predicate OutcomeSays(s: Doc, disk: Disk, r: Outcome) {
    && (r.NobodyNamed? <==> Names(s) == {})
    && (r.Refused? ==> r.problems != [] && ProblemsAre(s, disk, r.problems))
    && (r.Written? ==> forall p :: p in Names(s) ==> HasImage(s, disk, p) && HasAppearance(s, disk, p))
    && (r.Written? ==> ManifestSays(s, disk, r.files.manifest, r.ready))
    && (r.Written? ==> forall row :: row in r.files.photos <==> KeptRow(s, disk, row))
  }

  lemma ProblemsListed(s: Doc, disk: Disk, named: seq<string>, problem: Problem)
    requires Lists(disk.sorted) && named == disk.sorted(Names(s))
    ensures problem in Gather(s, disk, named, |named|).problems
                       + Absent(named, LabelRows(disk.sorted(Remaining(s.labels, CutPhotos(s, disk)).Keys)), |named|)
       <==> Complained(s, disk, problem)
  {
    ImageProblems(s, disk, named, |named|, problem);
    AppearanceProblems(named, LabelRows(disk.sorted(Remaining(s.labels, CutPhotos(s, disk)).Keys)), |named|, problem);
    AppearsIff(s, disk, problem.person);
    assert problem.person in named <==> problem.person in Names(s);
  }

  lemma PhotoRowsHave(photos: seq<string>, pathOf: string -> string, row: PhotoRow)
    ensures row in PhotoRows(photos, pathOf) <==> row.photo in photos && row.path == pathOf(row.photo)
  {
    var rows := PhotoRows(photos, pathOf);
    if row.photo in photos && row.path == pathOf(row.photo) {
      var i :| 0 <= i < |photos| && photos[i] == row.photo;
      assert rows[i] == row;
    }
  }

  lemma OutcomeIs(s: Doc, disk: Disk, id: string)
    requires Lists(disk.sorted)
    ensures OutcomeSays(s, disk, Exported(s, disk, id))
  {
    var named := disk.sorted(Names(s));
    var r := Exported(s, disk, id);
    assert named != [] ==> named[0] in named;
    if r.Written? {
      ManifestIs(s, disk, id);
    }
    if named != [] {
      HeldAre(s, disk, named);
      ComplaintsAre(s, disk, id);
      forall row ensures r.Written? ==> (row in r.files.photos <==> KeptRow(s, disk, row)) {
        PhotoRowsHave(KeptPhotos(s.photos, CutPhotos(s, disk)), disk.pathOf, row);
      }
    }
  }

  lemma ComplaintsAre(s: Doc, disk: Disk, id: string)
    requires Lists(disk.sorted) && disk.sorted(Names(s)) != []
    ensures match Exported(s, disk, id)
            case NobodyNamed => false
            case Refused(problems) => ProblemsAre(s, disk, problems)
            case Written(_, _) => forall p :: p in Names(s) ==> HasImage(s, disk, p) && HasAppearance(s, disk, p)
  {
    var named := disk.sorted(Names(s));
    HeldAre(s, disk, named);
    var all := Gather(s, disk, named, |named|).problems
               + Absent(named, LabelRows(disk.sorted(Remaining(s.labels, CutPhotos(s, disk)).Keys)), |named|);
    forall problem ensures problem in all <==> Complained(s, disk, problem) {
      ProblemsListed(s, disk, named, problem);
    }
    if all == [] {
      forall p | p in Names(s) ensures HasImage(s, disk, p) && HasAppearance(s, disk, p) {
        assert NoImage(p) !in all && NoAppearance(p) !in all;
      }
    }
  }

  method WriteSelfies(s: Doc, disk: Disk, person: string) returns (paths: seq<string>, held: set<string>)
    ensures Enrolment(paths, held) == Enrol(s, disk, person)
    ensures ImagesAre(s, disk, person, paths, held)
  {
    EnrolIs(s, disk, person);
    if disk.folder(person) != [] {
      return disk.folder(person), {};
    }
    var chosen := Chosen(s, person);
    paths, held := [], {};
    for n := 0 to |chosen|
      invariant Enrolment(paths, held) == Cuts(s.faces, person, chosen, n)
    {
      if !IsFace(s.faces, chosen[n]) {
        continue;
      }
      paths := paths + [CutPath(person, n + 1)];
      held := held + {PhotoOf(s.faces, chosen[n])};
    }
  }

  method GatherPeople(s: Doc, disk: Disk, named: seq<string>) returns (selfies: seq<SelfieRow>, held: set<string>, problems: seq<Problem>)
    ensures Gathered(selfies, held, problems) == Gather(s, disk, named, |named|)
  {
    selfies, held, problems := [], {}, [];
    for n := 0 to |named|
      invariant Gathered(selfies, held, problems) == Gather(s, disk, named, n)
    {
      var paths, holds := WriteSelfies(s, disk, named[n]);
      if paths == [] {
        problems := problems + [NoImage(named[n])];
        continue;
      }
      held := held + holds;
      selfies := selfies + SelfieRowsOf(named[n], paths);
    }
  }

  method CountSources(labels: map<string, Source>, keys: seq<string>) returns (cluster: nat, added: nat)
    requires forall k :: k in keys ==> k in labels
    ensures cluster == CountOf(labels, keys, Cluster) && added == CountOf(labels, keys, HumanAdded)
  {
    cluster, added := 0, 0;
    for n := 0 to |keys|
      invariant cluster == CountOf(labels, keys[..n], Cluster) && added == CountOf(labels, keys[..n], HumanAdded)
    {
      assert keys[n] in keys && keys[..n + 1][..n] == keys[..n];
      if labels[keys[n]] == Cluster {
        cluster := cluster + 1;
      } else {
        added := added + 1;
      }
    }
    assert keys[..|keys|] == keys;
  }

  method CheckAppearances(named: seq<string>, rows: seq<LabelRow>, before: seq<Problem>) returns (problems: seq<Problem>)
    ensures problems == before + Absent(named, rows, |named|)
  {
    problems := before;
    for n := 0 to |named|
      invariant problems == before + Absent(named, rows, n)
    {
      if !Appears(rows, named[n]) {
        problems := problems + [NoAppearance(named[n])];
      }
    }
  }

  method ExportDataset(s0: Doc, disk: Disk, id: string) returns (r: Outcome)
    requires FacesKnown(s0) && Lists(disk.sorted)
    ensures r == Export(s0, disk, id)
    ensures OutcomeSays(Recompute(s0), disk, r)
  {
    var s := Recompute(s0);
    OutcomeIs(s, disk, id);
    var named := disk.sorted(Names(s));
    if named == [] {
      return NobodyNamed;
    }
    var selfies, held, problems := GatherPeople(s, disk, named);
    var labels := Remaining(s.labels, held);
    var keys := disk.sorted(labels.Keys);
    var rows := LabelRows(keys);
    var cluster, added := CountSources(labels, keys);
    problems := CheckAppearances(named, rows, problems);
    if problems != [] {
      return Refused(problems);
    }
    var manifest := Manifest(id, "real", cluster, added, |s.removed|, |held|);
    return Written(Files(manifest, PhotoRows(KeptPhotos(s.photos, held), disk.pathOf), rows, selfies), added > 0);
  }
}
