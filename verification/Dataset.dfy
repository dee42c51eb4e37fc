/** Loading a labelled dataset: four files in, one checked dataset or the first complaint out. */
module Dataset {
  import opened Wrappers
  import opened Labelling

  datatype PhotoRow = PhotoRow(photo: string, path: string)
  datatype LabelRow = LabelRow(photo: string, person: string)
  datatype SelfieRow = SelfieRow(person: string, path: string)

  datatype Manifest = Manifest(
    id: string, kind: string, fromClusters: nat, humanAdded: nat, humanRemoved: nat, heldOutPhotos: nat)

  datatype Files = Files(manifest: Manifest, photos: seq<PhotoRow>, labels: seq<LabelRow>, selfies: seq<SelfieRow>)

  datatype LoadError =
    | BadKind
    | DuplicatePhoto(photo: string)
    | NoPhotos
    | NoSelfies
    | UnknownPhoto(photo: string)
    | UnknownPerson(person: string)
    | Unlabelled(people: set<string>)

  datatype Loaded = Loaded(manifest: Manifest, photos: seq<string>, selfies: map<string, seq<string>>, truth: Truth)

  // -------------------------------------------------------------------------
  // Row by row
  // -------------------------------------------------------------------------

  /** A row of nothing but white space is not read. */
  predicate Blank(a: string, b: string) {
    Strip(a) == "" && Strip(b) == ""
  }

  /** The ids of the first `n` rows, or the first one seen twice. */
  function PhotosUpTo(rows: seq<PhotoRow>, n: nat): (r: Result<seq<string>, LoadError>)
    requires n <= |rows|
  {
    if n == 0 then Ok([])
    else
      var before := PhotosUpTo(rows, n - 1);
      var row := rows[n - 1];
      if before.Err? || Blank(row.photo, row.path) then before
      else if Strip(row.photo) in before.value then Err(DuplicatePhoto(Strip(row.photo)))
      else Ok(before.value + [Strip(row.photo)])
  }

  function Push(m: map<string, seq<string>>, key: string, x: string): (r: map<string, seq<string>>) {
    m[key := if key in m then m[key] + [x] else [x]]
  }

  function SelfiesUpTo(rows: seq<SelfieRow>, n: nat): (r: map<string, seq<string>>)
    requires n <= |rows|
  {
    if n == 0 then map[]
    else
      var before := SelfiesUpTo(rows, n - 1);
      var row := rows[n - 1];
      if Blank(row.person, row.path) then before else Push(before, Strip(row.person), Strip(row.path))
  }

  function Include(m: Truth, key: string, x: string): (r: Truth)
    ensures forall p, y :: p in r && y in r[p] <==> (p in m && y in m[p]) || (p == key && y == x)
  {
    m[key := if key in m then m[key] + {x} else {x}]
  }

  type Truth = map<string, set<string>>

  function AddLabelRow(truth: Truth, row: LabelRow, photos: seq<string>, selfies: map<string, seq<string>>): (r: Result<Truth, LoadError>) {
    var photo, person := Strip(row.photo), Strip(row.person);
    if Blank(row.photo, row.person) then Ok(truth)
    else if photo !in photos then Err(UnknownPhoto(photo))
    else if person !in selfies then Err(UnknownPerson(person))
    else Ok(Include(truth, person, photo))
  }

  function TruthUpTo(rows: seq<LabelRow>, n: nat, photos: seq<string>, selfies: map<string, seq<string>>): (r: Result<Truth, LoadError>)
    requires n <= |rows|
  {
    if n == 0 then Ok(map[])
    else
      match TruthUpTo(rows, n - 1, photos, selfies)
      case Err(e) => Err(e)
      case Ok(truth) => AddLabelRow(truth, rows[n - 1], photos, selfies)
  }

  function WithoutLabels(selfies: map<string, seq<string>>, truth: Truth): (r: set<string>) {
    set p | p in selfies && (p !in truth || truth[p] == {})
  }

  /** load_dataset: the checks in the order they are made. */
  function Load(files: Files): (r: Result<Loaded, LoadError>) {
    if files.manifest.kind != "real" && files.manifest.kind != "synthetic" then Err(BadKind)
    else
      var photos := PhotosUpTo(files.photos, |files.photos|);
      if photos.Err? then Err(photos.error)
      else if photos.value == [] then Err(NoPhotos)
      else
        var selfies := SelfiesUpTo(files.selfies, |files.selfies|);
        if selfies == map[] then Err(NoSelfies)
        else
          var truth := TruthUpTo(files.labels, |files.labels|, photos.value, selfies);
          if truth.Err? then Err(truth.error)
          else if WithoutLabels(selfies, truth.value) != {} then Err(Unlabelled(WithoutLabels(selfies, truth.value)))
          else Ok(Loaded(files.manifest, photos.value, selfies, truth.value))
  }

  // -------------------------------------------------------------------------
  // The loops
  // -------------------------------------------------------------------------

  lemma {:induction false} PhotosStop(rows: seq<PhotoRow>, n: nat, m: nat)
    requires n <= m <= |rows| && PhotosUpTo(rows, n).Err?
    ensures PhotosUpTo(rows, m) == PhotosUpTo(rows, n)
  {
    if n < m {
      PhotosStop(rows, n, m - 1);
    }
  }

  lemma {:induction false} TruthStops(rows: seq<LabelRow>, n: nat, m: nat, photos: seq<string>, selfies: map<string, seq<string>>)
    requires n <= m <= |rows| && TruthUpTo(rows, n, photos, selfies).Err?
    ensures TruthUpTo(rows, m, photos, selfies) == TruthUpTo(rows, n, photos, selfies)
  {
    if n < m {
      TruthStops(rows, n, m - 1, photos, selfies);
    }
  }

  lemma TruthNext(rows: seq<LabelRow>, n: nat, photos: seq<string>, selfies: map<string, seq<string>>, truth: Truth)
    requires n < |rows| && TruthUpTo(rows, n, photos, selfies) == Ok(truth)
    ensures var r := AddLabelRow(truth, rows[n], photos, selfies);
            TruthUpTo(rows, n + 1, photos, selfies) == r && (r.Err? ==> TruthUpTo(rows, |rows|, photos, selfies) == r)
  {
    if AddLabelRow(truth, rows[n], photos, selfies).Err? {
      TruthStops(rows, n + 1, |rows|, photos, selfies);
    }
  }

  method ReadPhotos(rows: seq<PhotoRow>) returns (r: Result<seq<string>, LoadError>)
    ensures r == PhotosUpTo(rows, |rows|)
  {
    var photos: seq<string> := [];
    var seen: set<string> := {};
    for n := 0 to |rows|
      invariant PhotosUpTo(rows, n) == Ok(photos) && forall p :: p in seen <==> p in photos
    {
      if Blank(rows[n].photo, rows[n].path) {
        continue;
      }
      var id := Strip(rows[n].photo);
      if id in seen {
        PhotosStop(rows, n + 1, |rows|);
        return Err(DuplicatePhoto(id));
      }
      seen := seen + {id};
      photos := photos + [id];
    }
    return Ok(photos);
  }

  method ReadSelfies(rows: seq<SelfieRow>) returns (selfies: map<string, seq<string>>)
    ensures selfies == SelfiesUpTo(rows, |rows|)
  {
    selfies := map[];
    for n := 0 to |rows|
      invariant selfies == SelfiesUpTo(rows, n)
    {
      if Blank(rows[n].person, rows[n].path) {
        continue;
      }
      selfies := Push(selfies, Strip(rows[n].person), Strip(rows[n].path));
    }
  }

  method ReadLabels(rows: seq<LabelRow>, photos: seq<string>, selfies: map<string, seq<string>>)
      returns (r: Result<Truth, LoadError>)
    ensures r == TruthUpTo(rows, |rows|, photos, selfies)
  {
    var truth: Truth := map[];
    for n := 0 to |rows|
      invariant TruthUpTo(rows, n, photos, selfies) == Ok(truth)
    {
      r := ReadLabel(rows[n], photos, selfies, truth);
      TruthNext(rows, n, photos, selfies, truth);
      if r.Err? {
        return r;
      }
      truth := r.value;
    }
    return Ok(truth);
  }

  method ReadLabel(row: LabelRow, photos: seq<string>, selfies: map<string, seq<string>>, truth: Truth)
      returns (r: Result<Truth, LoadError>)
    ensures r == AddLabelRow(truth, row, photos, selfies)
  {
    if Blank(row.photo, row.person) {
      return Ok(truth);
    }
    var photo, person := Strip(row.photo), Strip(row.person);
    if photo !in photos {
      return Err(UnknownPhoto(photo));
    }
    if person !in selfies {
      return Err(UnknownPerson(person));
    }
    return Ok(Include(truth, person, photo));
  }

  method LoadDataset(files: Files) returns (r: Result<Loaded, LoadError>)
    ensures r == Load(files)
  {
    if files.manifest.kind !in {"real", "synthetic"} {
      return Err(BadKind);
    }
    var photos := ReadPhotos(files.photos);
    if photos.Err? {
      return Err(photos.error);
    }
    if photos.value == [] {
      return Err(NoPhotos);
    }
    var selfies := ReadSelfies(files.selfies);
    if selfies == map[] {
      return Err(NoSelfies);
    }
    var truth := ReadLabels(files.labels, photos.value, selfies);
    if truth.Err? {
      return Err(truth.error);
    }
    var unlabelled := WithoutLabels(selfies, truth.value);
    if unlabelled != {} {
      return Err(Unlabelled(unlabelled));
    }
    return Ok(Loaded(files.manifest, photos.value, selfies, truth.value));
  }

  // -------------------------------------------------------------------------
  // What acceptance means
  // -------------------------------------------------------------------------

  /** An accepted dataset's truth is what its label rows add up to. */
  lemma LoadedIs(files: Files, photos: seq<string>)
    requires Load(files).Ok? && PhotosUpTo(files.photos, |files.photos|) == Ok(photos)
    ensures TruthUpTo(files.labels, |files.labels|, photos, SelfiesUpTo(files.selfies, |files.selfies|))
         == Ok(Load(files).value.truth)
  {
  }

  /** Row `i` is read and says `person` is in `photo`. */
  ghost predicate Tells(rows: seq<LabelRow>, i: int, photo: string, person: string) {
    0 <= i < |rows| && !Blank(rows[i].photo, rows[i].person) && Strip(rows[i].photo) == photo && Strip(rows[i].person) == person
  }

  ghost predicate Enrols(rows: seq<SelfieRow>, i: int, person: string) {
    0 <= i < |rows| && !Blank(rows[i].person, rows[i].path) && Strip(rows[i].person) == person
  }

  lemma SelfieRowAdds(rows: seq<SelfieRow>, n: nat, person: string)
    requires 0 < n <= |rows|
    ensures person in SelfiesUpTo(rows, n) <==> person in SelfiesUpTo(rows, n - 1) || Enrols(rows, n - 1, person)
  {
  }

  /** One of the first `n` rows enrols the person. */
  ghost predicate EnrolledBy(rows: seq<SelfieRow>, n: int, person: string) {
    exists i :: i < n && Enrols(rows, i, person)
  }

  lemma EnrolledSnoc(rows: seq<SelfieRow>, n: nat, person: string)
    requires n > 0
    ensures EnrolledBy(rows, n, person) <==> EnrolledBy(rows, n - 1, person) || Enrols(rows, n - 1, person)
  {
    if i :| i < n && Enrols(rows, i, person) {
      assert i < n - 1 || i == n - 1;
    }
  }

  lemma NobodyYet(rows: seq<SelfieRow>, person: string)
    ensures person !in SelfiesUpTo(rows, 0) && !EnrolledBy(rows, 0, person)
  {
  }

  lemma {:induction false} SelfieKeys(rows: seq<SelfieRow>, n: nat, person: string)
    requires n <= |rows|
    ensures person in SelfiesUpTo(rows, n) <==> EnrolledBy(rows, n, person)
  {
    if n > 0 {
      SelfieKeys(rows, n - 1, person);
      SelfieRowAdds(rows, n, person);
      EnrolledSnoc(rows, n, person);
    } else {
      NobodyYet(rows, person);
    }
  }

  /** Every row read names a known photograph and an enrolled person. */
  ghost predicate RowsKnown(rows: seq<LabelRow>, n: nat, photos: seq<string>, selfies: map<string, seq<string>>)
    requires n <= |rows|
  {
    forall i :: 0 <= i < n && !Blank(rows[i].photo, rows[i].person) ==>
      Strip(rows[i].photo) in photos && Strip(rows[i].person) in selfies
  }

  lemma {:induction false} TruthOkIff(rows: seq<LabelRow>, n: nat, photos: seq<string>, selfies: map<string, seq<string>>)
    requires n <= |rows|
    ensures TruthUpTo(rows, n, photos, selfies).Ok? <==> RowsKnown(rows, n, photos, selfies)
  {
    if n > 0 {
      TruthOkIff(rows, n - 1, photos, selfies);
      var row := rows[n - 1];
      var known := !Blank(row.photo, row.person) ==> Strip(row.photo) in photos && Strip(row.person) in selfies;
      assert RowsKnown(rows, n, photos, selfies) <==> (RowsKnown(rows, n - 1, photos, selfies) && known);
    }
  }

  lemma AddedRow(truth: Truth, rows: seq<LabelRow>, i: nat, photos: seq<string>, selfies: map<string, seq<string>>, photo: string, person: string)
    requires i < |rows| && AddLabelRow(truth, rows[i], photos, selfies).Ok?
    ensures var after := AddLabelRow(truth, rows[i], photos, selfies).value;
            person in after && photo in after[person] <==> (person in truth && photo in truth[person]) || Tells(rows, i, photo, person)
  {
  }

  lemma {:induction false} TruthContents(rows: seq<LabelRow>, n: nat, photos: seq<string>, selfies: map<string, seq<string>>,
                                         photo: string, person: string)
    requires n <= |rows| && TruthUpTo(rows, n, photos, selfies).Ok?
    ensures var truth := TruthUpTo(rows, n, photos, selfies).value;
            person in truth && photo in truth[person] <==> exists i :: i < n && Tells(rows, i, photo, person)
  {
    if n > 0 {
      TruthContents(rows, n - 1, photos, selfies, photo, person);
      AddedRow(TruthUpTo(rows, n - 1, photos, selfies).value, rows, n - 1, photos, selfies, photo, person);
    }
  }
}
