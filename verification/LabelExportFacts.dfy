/** What the exporter writes against what the loader asks for. */
module LabelExportFacts {
  import opened Wrappers
  import opened Labelling
  import LabellingFacts
  import opened Dataset
  import opened LabelExport
  import LabelInit

  /** Image files have names. */
  ghost predicate RealPaths(disk: Disk) {
    forall person, k :: 0 <= k < |disk.folder(person)| ==> Strip(disk.folder(person)[k]) != ""
  }

  /** A photograph's id: no white space at its ends, not blank, no bar. */
  ghost predicate CleanId(id: string) {
    id != "" && Strip(id) == id && '|' !in id
  }

  ghost predicate CleanPhotos(photos: seq<string>) {
    NoRepeats(photos) && forall i :: 0 <= i < |photos| ==> CleanId(photos[i])
  }

  /** What was written, and from what. */
  ghost predicate Wrote(s: Doc, disk: Disk, id: string, g: Gathered, named: seq<string>, files: Files)
    requires Lists(disk.sorted)
  {
    && named == disk.sorted(Names(s)) && named != []
    && g == Gather(s, disk, named, |named|) && g.problems == []
    && files == FilesOf(s, disk, id, g) && Absent(named, files.labels, |named|) == []
  }

  lemma WrittenIs(s: Doc, disk: Disk, id: string)
    requires Lists(disk.sorted) && Exported(s, disk, id).Written?
    ensures var named := disk.sorted(Names(s));
            Wrote(s, disk, id, Gather(s, disk, named, |named|), named, Exported(s, disk, id).files)
  {
  }

  // -------------------------------------------------------------------------
  // What passing the problem list says
  // -------------------------------------------------------------------------

  lemma {:induction false} EveryoneEnrolled(s: Doc, disk: Disk, named: seq<string>, n: nat)
    requires n <= |named|
    ensures Gather(s, disk, named, n).problems == [] <==> forall i :: 0 <= i < n ==> Enrol(s, disk, named[i]).paths != []
  {
    if n > 0 {
      EveryoneEnrolled(s, disk, named, n - 1);
    }
  }

  lemma {:induction false} EveryoneAppears(named: seq<string>, rows: seq<LabelRow>, n: nat)
    requires n <= |named|
    ensures Absent(named, rows, n) == [] <==> forall i :: 0 <= i < n ==> Appears(rows, named[i])
  {
    if n > 0 {
      EveryoneAppears(named, rows, n - 1);
    }
  }

  ghost predicate SelfieOf(s: Doc, disk: Disk, named: seq<string>, n: nat, row: SelfieRow)
    requires n <= |named|
  {
    exists i :: 0 <= i < n && row.person == named[i] && row.path in Enrol(s, disk, named[i]).paths
  }

  lemma {:induction false} SelfieRowIff(s: Doc, disk: Disk, named: seq<string>, n: nat, row: SelfieRow)
    requires n <= |named|
    ensures row in Gather(s, disk, named, n).selfies <==> SelfieOf(s, disk, named, n, row)
  {
    if n > 0 {
      SelfieRowIff(s, disk, named, n - 1, row);
      var e := Enrol(s, disk, named[n - 1]);
      var rows := SelfieRowsOf(named[n - 1], e.paths);
      assert row in rows <==> row.person == named[n - 1] && row.path in e.paths by {
        if row.person == named[n - 1] && row.path in e.paths {
          var k :| 0 <= k < |e.paths| && e.paths[k] == row.path;
          assert rows[k] == row;
        }
      }
    }
  }

  lemma {:induction false} CutsHaveNames(faces: seq<Face>, person: string, chosen: seq<string>, n: nat, path: string)
    requires n <= |chosen| && path in Cuts(faces, person, chosen, n).paths
    ensures Strip(path) != ""
  {
    if n > 0 {
      var before := Cuts(faces, person, chosen, n - 1);
      if path in before.paths {
        CutsHaveNames(faces, person, chosen, n - 1, path);
      } else {
        assert path[0] == 's' && path[|path| - 1] == 'g';
      }
    }
  }

  lemma PathsHaveNames(s: Doc, disk: Disk, person: string, path: string)
    requires RealPaths(disk) && path in Enrol(s, disk, person).paths
    ensures Strip(path) != ""
  {
    if disk.folder(person) == [] {
      CutsHaveNames(s.faces, person, Chosen(s, person), |Chosen(s, person)|, path);
    }
  }

  // -------------------------------------------------------------------------
  // The three files, as the loader reads them
  // -------------------------------------------------------------------------

  lemma {:induction false} PhotosRead(photos: seq<string>, pathOf: string -> string, n: nat)
    requires n <= |photos| && CleanPhotos(photos)
    ensures PhotosUpTo(PhotoRows(photos, pathOf), n) == Ok(photos[..n])
  {
    if n > 0 {
      PhotosRead(photos, pathOf, n - 1);
      assert photos[..n] == photos[..n - 1] + [photos[n - 1]];
      assert photos[n - 1] !in photos[..n - 1];
    }
  }

  lemma {:induction false} KeptClean(photos: seq<string>, held: set<string>)
    requires CleanPhotos(photos)
    ensures CleanPhotos(KeptPhotos(photos, held))
  {
    if photos != [] {
      var init := photos[..|photos| - 1];
      KeptClean(init, held);
      assert photos[|photos| - 1] !in init;
      var r := KeptPhotos(photos, held);
      forall i | 0 <= i < |r| ensures CleanId(r[i]) {
        assert r[i] in r;
      }
    }
  }

  lemma PhotosLoad(s: Doc, disk: Disk, id: string, g: Gathered)
    requires Lists(disk.sorted) && CleanPhotos(s.photos)
    ensures var rows := FilesOf(s, disk, id, g).photos;
            PhotosUpTo(rows, |rows|) == Ok(KeptPhotos(s.photos, g.held))
  {
    var kept := KeptPhotos(s.photos, g.held);
    KeptClean(s.photos, g.held);
    PhotosRead(kept, disk.pathOf, |kept|);
    assert kept[..|kept|] == kept;
  }

  /** The loader enrols exactly the named people, up to white space. */
  ghost predicate NamedAs(named: seq<string>, person: string) {
    exists i :: 0 <= i < |named| && Strip(named[i]) == person
  }

  lemma SelfiesLoad(s: Doc, disk: Disk, named: seq<string>, person: string)
    requires RealPaths(disk) && Gather(s, disk, named, |named|).problems == []
    ensures var rows := Gather(s, disk, named, |named|).selfies;
            person in SelfiesUpTo(rows, |rows|) <==> NamedAs(named, person)
  {
    var rows := Gather(s, disk, named, |named|).selfies;
    SelfieKeys(rows, |rows|, person);
    EveryoneEnrolled(s, disk, named, |named|);
    if k :| Enrols(rows, k, person) {
      SelfieRowIff(s, disk, named, |named|, rows[k]);
    }
    if i :| 0 <= i < |named| && Strip(named[i]) == person {
      var path := Enrol(s, disk, named[i]).paths[0];
      PathsHaveNames(s, disk, named[i], path);
      SelfieRowIff(s, disk, named, |named|, SelfieRow(named[i], path));
      var k :| 0 <= k < |rows| && rows[k] == SelfieRow(named[i], path);
      assert Enrols(rows, k, person);
    }
  }

  /** A label the loader reads as `person` in `photo`. */
  ghost predicate ReadAs(key: string, photo: string, person: string) {
    && !Blank(PhotoField(key), PersonField(key))
    && Strip(PhotoField(key)) == photo && Strip(PersonField(key)) == person
  }

  lemma RowsOfKeys(labels: map<string, Source>, sorted: set<string> -> seq<string>, photo: string, person: string)
    requires Lists(sorted)
    ensures var rows := LabelRows(sorted(labels.Keys));
            (exists i :: Tells(rows, i, photo, person)) <==> exists k :: k in labels && ReadAs(k, photo, person)
  {
    var keys := sorted(labels.Keys);
    var rows := LabelRows(keys);
    if i :| Tells(rows, i, photo, person) {
      assert keys[i] in keys && ReadAs(keys[i], photo, person);
    }
    if k :| k in labels && ReadAs(k, photo, person) {
      assert k in keys;
      var i :| 0 <= i < |keys| && keys[i] == k;
      assert Tells(rows, i, photo, person);
    }
  }

  // -------------------------------------------------------------------------
  // Acceptance
  // -------------------------------------------------------------------------

  /** Every label left, unless blank, names a photograph left. */
  ghost predicate LabelsKnown(s: Doc, g: Gathered) {
    forall k :: k in Remaining(s.labels, g.held) && !Blank(PhotoField(k), PersonField(k)) ==>
      Strip(PhotoField(k)) in KeptPhotos(s.photos, g.held)
  }

  /** Everybody named has a label left that is not blank. */
  ghost predicate EveryoneRead(s: Doc, g: Gathered, named: seq<string>) {
    forall i :: 0 <= i < |named| ==> HasLabel(s, g, Strip(named[i]))
  }

  ghost predicate HasLabel(s: Doc, g: Gathered, person: string) {
    exists k :: k in Remaining(s.labels, g.held) && ReadAs(k, Strip(PhotoField(k)), person)
  }

  lemma PersonIsNamed(s: Doc, disk: Disk, k: string)
    requires Lists(disk.sorted) && k in s.labels
    ensures NamedAs(disk.sorted(Names(s)), Strip(PersonField(k)))
  {
    assert PersonField(k) in disk.sorted(Names(s));
  }

  lemma RowsKnownThen(s: Doc, disk: Disk, id: string, g: Gathered, selfies: map<string, seq<string>>)
    requires Lists(disk.sorted)
    requires var rows := FilesOf(s, disk, id, g).labels; RowsKnown(rows, |rows|, KeptPhotos(s.photos, g.held), selfies)
    ensures LabelsKnown(s, g)
  {
    var labels := Remaining(s.labels, g.held);
    var keys := disk.sorted(labels.Keys);
    var rows := LabelRows(keys);
    forall k | k in labels && !Blank(PhotoField(k), PersonField(k)) ensures Strip(PhotoField(k)) in KeptPhotos(s.photos, g.held) {
      assert k in keys;
      var i :| 0 <= i < |keys| && keys[i] == k;
      assert rows[i] == LabelRow(PhotoField(k), PersonField(k));
    }
  }

  lemma LabelsKnownThen(s: Doc, disk: Disk, id: string, g: Gathered, selfies: map<string, seq<string>>)
    requires Lists(disk.sorted) && LabelsKnown(s, g)
    requires forall k :: k in s.labels ==> Strip(PersonField(k)) in selfies
    ensures var rows := FilesOf(s, disk, id, g).labels; RowsKnown(rows, |rows|, KeptPhotos(s.photos, g.held), selfies)
  {
    var labels := Remaining(s.labels, g.held);
    var keys := disk.sorted(labels.Keys);
    var rows := LabelRows(keys);
    forall i | 0 <= i < |rows| && !Blank(rows[i].photo, rows[i].person)
      ensures Strip(rows[i].photo) in KeptPhotos(s.photos, g.held) && Strip(rows[i].person) in selfies
    {
      assert keys[i] in keys;
    }
  }

  lemma RowsKnownIff(s: Doc, disk: Disk, id: string, g: Gathered, named: seq<string>, files: Files, selfies: map<string, seq<string>>)
    requires Lists(disk.sorted) && Wrote(s, disk, id, g, named, files)
    requires forall p :: p in selfies <==> NamedAs(named, p)
    ensures RowsKnown(files.labels, |files.labels|, KeptPhotos(s.photos, g.held), selfies) <==> LabelsKnown(s, g)
  {
    forall k | k in s.labels ensures Strip(PersonField(k)) in selfies {
      PersonIsNamed(s, disk, k);
    }
    if LabelsKnown(s, g) {
      LabelsKnownThen(s, disk, id, g, selfies);
    }
    if RowsKnown(files.labels, |files.labels|, KeptPhotos(s.photos, g.held), selfies) {
      RowsKnownThen(s, disk, id, g, selfies);
    }
  }

  /** Truth, where there is any: the labels outside held-out photographs, as the loader reads them. */
  lemma TruthLoads(s: Doc, disk: Disk, id: string, g: Gathered, named: seq<string>, files: Files,
                   selfies: map<string, seq<string>>, photo: string, person: string)
    requires Lists(disk.sorted) && Wrote(s, disk, id, g, named, files)
    requires TruthUpTo(files.labels, |files.labels|, KeptPhotos(s.photos, g.held), selfies).Ok?
    ensures var truth := TruthUpTo(files.labels, |files.labels|, KeptPhotos(s.photos, g.held), selfies).value;
            person in truth && photo in truth[person] <==> exists k :: k in Remaining(s.labels, g.held) && ReadAs(k, photo, person)
  {
    var rows := files.labels;
    TruthContents(rows, |rows|, KeptPhotos(s.photos, g.held), selfies, photo, person);
    RowsOfKeys(Remaining(s.labels, g.held), disk.sorted, photo, person);
    assert (exists i :: i < |rows| && Tells(rows, i, photo, person)) <==> exists i :: Tells(rows, i, photo, person);
  }

  lemma NobodyWithout(s: Doc, disk: Disk, id: string, g: Gathered, named: seq<string>, files: Files, selfies: map<string, seq<string>>)
    requires Lists(disk.sorted) && Wrote(s, disk, id, g, named, files)
    requires forall p :: p in selfies <==> NamedAs(named, p)
    requires TruthUpTo(files.labels, |files.labels|, KeptPhotos(s.photos, g.held), selfies).Ok?
    ensures WithoutLabels(selfies, TruthUpTo(files.labels, |files.labels|, KeptPhotos(s.photos, g.held), selfies).value) == {}
       <==> EveryoneRead(s, g, named)
  {
    var kept := KeptPhotos(s.photos, g.held);
    var truth := TruthUpTo(files.labels, |files.labels|, kept, selfies).value;
    forall p ensures p in truth && truth[p] != {} <==> HasLabel(s, g, p) {
      if p in truth && truth[p] != {} {
        var photo :| photo in truth[p];
        TruthLoads(s, disk, id, g, named, files, selfies, photo, p);
        var k :| k in Remaining(s.labels, g.held) && ReadAs(k, photo, p);
        assert ReadAs(k, Strip(PhotoField(k)), p);
      }
      if HasLabel(s, g, p) {
        var k :| k in Remaining(s.labels, g.held) && ReadAs(k, Strip(PhotoField(k)), p);
        TruthLoads(s, disk, id, g, named, files, selfies, Strip(PhotoField(k)), p);
      }
    }
    if WithoutLabels(selfies, truth) == {} {
      forall i | 0 <= i < |named| ensures HasLabel(s, g, Strip(named[i])) {
        assert Strip(named[i]) in selfies;
        assert Strip(named[i]) !in WithoutLabels(selfies, truth);
      }
    }
    if EveryoneRead(s, g, named) {
      forall p | p in selfies ensures p in truth && truth[p] != {} {
        var i :| 0 <= i < |named| && Strip(named[i]) == p;
      }
    }
  }

  /** Whatever passes the problem list is accepted by the loader exactly when every label left names a
      photograph left and nobody's labels are all blank. */
  lemma LoaderAcceptsIff(s: Doc, disk: Disk, id: string)
    requires Lists(disk.sorted) && RealPaths(disk) && CleanPhotos(s.photos)
    requires Exported(s, disk, id).Written?
    ensures var named := disk.sorted(Names(s));
            var g := Gather(s, disk, named, |named|);
            Load(Exported(s, disk, id).files).Ok? <==> LabelsKnown(s, g) && EveryoneRead(s, g, named)
  {
    var named := disk.sorted(Names(s));
    var g := Gather(s, disk, named, |named|);
    var files := Exported(s, disk, id).files;
    WrittenIs(s, disk, id);
    var kept := KeptPhotos(s.photos, g.held);
    PhotosLoad(s, disk, id, g);
    var selfies := SelfiesUpTo(files.selfies, |files.selfies|);
    forall p ensures p in selfies <==> NamedAs(named, p) {
      SelfiesLoad(s, disk, named, p);
    }
    assert NamedAs(named, Strip(named[0]));
    assert Strip(named[0]) in selfies;
    RowsKnownIff(s, disk, id, g, named, files, selfies);
    TruthOkIff(files.labels, |files.labels|, kept, selfies);
    if LabelsKnown(s, g) {
      NobodyWithout(s, disk, id, g, named, files, selfies);
      if EveryoneRead(s, g, named) {
        assert HasLabel(s, g, Strip(named[0]));
        var k :| k in Remaining(s.labels, g.held) && ReadAs(k, Strip(PhotoField(k)), Strip(named[0]));
        assert Strip(PhotoField(k)) in kept;
      }
    }
  }

  /** Named people who are not all white space cannot fail the second half. */
  lemma NobodyBlank(s: Doc, disk: Disk, id: string)
    requires Lists(disk.sorted) && Exported(s, disk, id).Written?
    requires forall p :: p in Names(s) ==> Strip(p) != ""
    ensures var named := disk.sorted(Names(s)); EveryoneRead(s, Gather(s, disk, named, |named|), named)
  {
    var named := disk.sorted(Names(s));
    var g := Gather(s, disk, named, |named|);
    var rows := Exported(s, disk, id).files.labels;
    EveryoneAppears(named, rows, |named|);
    forall i | 0 <= i < |named| ensures HasLabel(s, g, Strip(named[i])) {
      assert Appears(rows, named[i]);
      var r :| 0 <= r < |rows| && rows[r].person == named[i];
      var k := disk.sorted(Remaining(s.labels, g.held).Keys)[r];
      assert k in disk.sorted(Remaining(s.labels, g.held).Keys);
      assert named[i] in named;
      assert ReadAs(k, Strip(PhotoField(k)), Strip(named[i]));
    }
  }

  // -------------------------------------------------------------------------
  // What is loaded
  // -------------------------------------------------------------------------

  /** A key the split takes apart as it was put together. */
  ghost predicate Tidy(key: string) {
    CleanId(PhotoField(key)) && CleanId(PersonField(key)) && key == Key(PhotoField(key), PersonField(key))
  }

  /** Some label left reads as this pair. */
  ghost predicate LabelReads(s: Doc, g: Gathered, photo: string, person: string) {
    exists k :: k in Remaining(s.labels, g.held) && ReadAs(k, photo, person)
  }

  lemma LoadedLabels(s: Doc, disk: Disk, id: string, g: Gathered, named: seq<string>, files: Files, photo: string, person: string)
    requires Lists(disk.sorted) && CleanPhotos(s.photos) && Wrote(s, disk, id, g, named, files) && Load(files).Ok?
    ensures person in Load(files).value.truth && photo in Load(files).value.truth[person] <==> LabelReads(s, g, photo, person)
  {
    PhotosLoad(s, disk, id, g);
    LoadedIs(files, KeptPhotos(s.photos, g.held));
    TruthLoads(s, disk, id, g, named, files, SelfiesUpTo(files.selfies, |files.selfies|), photo, person);
  }

  lemma TidyReads(s: Doc, g: Gathered, photo: string, person: string)
    requires forall k :: k in s.labels ==> Tidy(k)
    ensures LabelReads(s, g, photo, person)
       <==> Key(photo, person) in s.labels && '|' !in photo && photo !in g.held
  {
    var k := Key(photo, person);
    if LabelReads(s, g, photo, person) {
      var l :| l in Remaining(s.labels, g.held) && ReadAs(l, photo, person);
      assert Tidy(l);
    }
    if k in s.labels && '|' !in photo && photo !in g.held {
      assert Tidy(k);
      LabellingFacts.KeyInjective(photo, person, PhotoField(k), PersonField(k));
      assert k in Remaining(s.labels, g.held) && ReadAs(k, photo, person);
    }
  }

  /** Of clean ids, the loaded truth is the labels outside the held-out photographs. */
  lemma LoadedTruth(s: Doc, disk: Disk, id: string, photo: string, person: string)
    requires Lists(disk.sorted) && RealPaths(disk) && CleanPhotos(s.photos)
    requires Exported(s, disk, id).Written? && Load(Exported(s, disk, id).files).Ok?
    requires forall k :: k in s.labels ==> Tidy(k)
    ensures InTruth(Load(Exported(s, disk, id).files).value.truth, photo, person)
       <==> Key(photo, person) in s.labels && '|' !in photo && photo !in CutPhotos(s, disk)
  {
    var named := disk.sorted(Names(s));
    WrittenIs(s, disk, id);
    var g := Gather(s, disk, named, |named|);
    HeldAre(s, disk, named);
    LoadedLabels(s, disk, id, g, named, Exported(s, disk, id).files, photo, person);
    TidyReads(s, g, photo, person);
  }

  ghost predicate InTruth(truth: Truth, photo: string, person: string) {
    person in truth && photo in truth[person]
  }

  /** The two counts in the manifest add up to the rows beside them. */
  lemma {:induction false} CountsAddUp(labels: map<string, Source>, keys: seq<string>)
    requires forall k :: k in keys ==> k in labels
    ensures CountOf(labels, keys, Cluster) + CountOf(labels, keys, HumanAdded) == |keys|
    decreases |keys|
  {
    if keys != [] {
      assert keys[|keys| - 1] in keys;
      CountsAddUp(labels, keys[..|keys| - 1]);
    }
  }

  function Elements(rows: seq<LabelRow>): (r: set<LabelRow>) {
    set i | 0 <= i < |rows| :: rows[i]
  }

  lemma {:induction false} ElementsCount(rows: seq<LabelRow>)
    requires forall a, b :: 0 <= a < b < |rows| ==> rows[a] != rows[b]
    ensures |Elements(rows)| == |rows|
    decreases |rows|
  {
    if rows != [] {
      var init := rows[..|rows| - 1];
      ElementsCount(init);
      assert Elements(rows) == Elements(init) + {rows[|rows| - 1]};
    }
  }

  ghost function Appearances(truth: Truth): (r: set<LabelRow>) {
    set p, y | p in truth && y in truth[p] :: LabelRow(y, p)
  }

  /** The manifest's two counts add up to the number of appearances the loader ends up with. */
  lemma ManifestMatchesTruth(s: Doc, disk: Disk, id: string)
    requires Lists(disk.sorted) && RealPaths(disk) && CleanPhotos(s.photos)
    requires Exported(s, disk, id).Written? && Load(Exported(s, disk, id).files).Ok?
    requires forall k :: k in s.labels ==> Tidy(k)
    ensures var files := Exported(s, disk, id).files;
            files.manifest.fromClusters + files.manifest.humanAdded == |files.labels|
            && |files.labels| == |Appearances(Load(files).value.truth)|
  {
    var named := disk.sorted(Names(s));
    var g := Gather(s, disk, named, |named|);
    WrittenIs(s, disk, id);
    var files := Exported(s, disk, id).files;
    var labels := Remaining(s.labels, g.held);
    var keys := disk.sorted(labels.Keys);
    CountsAddUp(labels, keys);
    RowsDistinct(keys, s);
    ElementsCount(files.labels);
    assert Elements(files.labels) == Appearances(Load(files).value.truth) by {
      forall row ensures row in Elements(files.labels) <==> row in Appearances(Load(files).value.truth) {
        LoadedTruth(s, disk, id, row.photo, row.person);
        HeldAre(s, disk, named);
        RowIffKey(s, g, keys, row);
      }
    }
  }

  lemma RowsDistinct(keys: seq<string>, s: Doc)
    requires NoRepeats(keys) && forall k :: k in keys ==> k in s.labels
    requires forall k :: k in s.labels ==> Tidy(k)
    ensures forall a, b :: 0 <= a < b < |keys| ==> LabelRows(keys)[a] != LabelRows(keys)[b]
  {
    forall a, b | 0 <= a < b < |keys| ensures LabelRows(keys)[a] != LabelRows(keys)[b] {
      assert keys[a] in keys && keys[b] in keys;
    }
  }

  lemma RowIffKey(s: Doc, g: Gathered, keys: seq<string>, row: LabelRow)
    requires forall k :: k in s.labels ==> Tidy(k)
    requires forall k :: k in keys <==> k in Remaining(s.labels, g.held)
    ensures row in Elements(LabelRows(keys))
       <==> Key(row.photo, row.person) in s.labels && '|' !in row.photo && row.photo !in g.held
  {
    var k := Key(row.photo, row.person);
    if row in Elements(LabelRows(keys)) {
      var i :| 0 <= i < |keys| && LabelRows(keys)[i] == row;
      assert keys[i] in keys;
      assert Tidy(keys[i]);
    }
    if k in s.labels && '|' !in row.photo && row.photo !in g.held {
      LabellingFacts.KeyInjective(row.photo, row.person, PhotoField(k), PersonField(k));
      assert k in keys;
      var i :| 0 <= i < |keys| && keys[i] == k;
      assert LabelRows(keys)[i] == row;
    }
  }

  // -------------------------------------------------------------------------
  // Held-out photographs
  // -------------------------------------------------------------------------

  lemma {:induction false} CutPhotosHeld(faces: seq<Face>, person: string, chosen: seq<string>, n: nat, k: nat)
    requires k < n <= |chosen| && IsFace(faces, chosen[k])
    ensures PhotoOf(faces, chosen[k]) in Cuts(faces, person, chosen, n).held
    decreases n
  {
    if k < n - 1 {
      CutPhotosHeld(faces, person, chosen, n - 1, k);
    }
  }

  lemma {:induction false} HeldByOne(s: Doc, disk: Disk, named: seq<string>, n: nat, i: nat)
    requires i < n <= |named| && Enrol(s, disk, named[i]).paths != []
    ensures Enrol(s, disk, named[i]).held <= Gather(s, disk, named, n).held
    decreases n
  {
    if i < n - 1 {
      HeldByOne(s, disk, named, n - 1, i);
    }
  }

  /** No photograph an enrolment image was cut from is in the exported set, in any of the files. */
  lemma NoHeldOutSurvives(s: Doc, disk: Disk, id: string, person: string, k: nat)
    requires Lists(disk.sorted) && Exported(s, disk, id).Written?
    requires person in Names(s) && disk.folder(person) == []
    requires k < |Chosen(s, person)| && IsFace(s.faces, Chosen(s, person)[k])
    ensures var photo, files := PhotoOf(s.faces, Chosen(s, person)[k]), Exported(s, disk, id).files;
            && (forall i :: 0 <= i < |files.photos| ==> files.photos[i].photo != photo)
            && (forall i :: 0 <= i < |files.labels| ==> files.labels[i].photo != photo)
  {
    var named := disk.sorted(Names(s));
    var g := Gather(s, disk, named, |named|);
    WrittenIs(s, disk, id);
    EveryoneEnrolled(s, disk, named, |named|);
    assert person in named;
    var i :| 0 <= i < |named| && named[i] == person;
    HeldByOne(s, disk, named, |named|, i);
    CutPhotosHeld(s.faces, person, Chosen(s, person), |Chosen(s, person)|, k);
    HeldIsGone(s, disk, id, g, PhotoOf(s.faces, Chosen(s, person)[k]));
  }

  lemma HeldIsGone(s: Doc, disk: Disk, id: string, g: Gathered, photo: string)
    requires Lists(disk.sorted) && photo in g.held
    ensures var files := FilesOf(s, disk, id, g);
            && (forall i :: 0 <= i < |files.photos| ==> files.photos[i].photo != photo)
            && (forall i :: 0 <= i < |files.labels| ==> files.labels[i].photo != photo)
  {
    var kept := KeptPhotos(s.photos, g.held);
    var keys := disk.sorted(Remaining(s.labels, g.held).Keys);
    assert forall i :: 0 <= i < |kept| ==> kept[i] in kept;
    assert forall i :: 0 <= i < |keys| ==> keys[i] in keys;
  }

  // -------------------------------------------------------------------------
  // Where it goes wrong
  // -------------------------------------------------------------------------

  /** A label by hand for a photograph the album does not have passes the problem list unseen:
      such a dataset is always refused. */
  lemma UnknownPhotoIsRefused(s: Doc, disk: Disk, id: string, key: string)
    requires Lists(disk.sorted) && RealPaths(disk) && CleanPhotos(s.photos) && Exported(s, disk, id).Written?
    requires key in s.labels && Tidy(key) && PhotoField(key) !in s.photos
    requires var named := disk.sorted(Names(s)); PhotoField(key) !in Gather(s, disk, named, |named|).held
    ensures Load(Exported(s, disk, id).files).Err?
  {
    LoaderAcceptsIff(s, disk, id);
    var named := disk.sorted(Names(s));
    assert key in Remaining(s.labels, Gather(s, disk, named, |named|).held);
  }
}
