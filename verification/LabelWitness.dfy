/** A session whose export passes the problem list and is refused by the loader. */
module LabelWitness {
  import opened Wrappers
  import opened Labelling
  import opened LabellingFacts
  import LabelInit
  import Dataset
  import opened LabelExport
  import opened LabelExportFacts
  import opened LabelSession

  // -------------------------------------------------------------------------
  // A disk
  // -------------------------------------------------------------------------

  /** Some listing of a set: there is one, so what is asked of the library's sort can be met. */
  ghost function Listing(all: set<string>): (r: seq<string>)
    ensures NoRepeats(r) && forall x :: x in r <==> x in all
  {
    if all == {} then []
    else
      var x :| x in all;
      var rest := Listing(all - {x});
      [x] + rest
  }

  ghost function SomeDisk(): (disk: Disk)
    ensures Lists(disk.sorted) && RealPaths(disk) && forall person :: disk.folder(person) != []
  {
    Disk(_ => ["selfie.jpg"], photo => photo, all => Listing(all))
  }

  // -------------------------------------------------------------------------
  // The session
  // -------------------------------------------------------------------------

  const PHOTO := LabelInit.PhotoName(0)
  const ELSEWHERE := "elsewhere"
  const ANN := "ann"

  /** An album of one photograph with one face, which is in no group for want of another. */
  function Album(): Doc { Doc([PHOTO], [Face(LabelInit.FaceName(0), PHOTO, "")], [], map[], map[], {}, map[]) }

  /** It is what initialising leaves of such an album. */
  method InitialisedAlbum(eps: real) returns (s: Option<Doc>)
    requires eps >= 0.0
    ensures s == Some(Album()) && FreshAlbum(Album())
  {
    AlbumIsFresh();
    s := LabelInit.Init(1, [0], [[1.0]], eps);
    ghost var doc := s.value;
    assert |doc.faces| == 1 && doc.faces[0].group == "";
    if doc.groups != [] {
      ghost var i := LabelInit.SomeMember(doc, 0);
    }
    assert doc == Album();
  }

  lemma AlbumIsFresh()
    ensures FreshAlbum(Album())
  {
    Clean();
  }

  /** Ann is in the photograph, and in one the album does not have. */
  function Actions(): seq<Action> { [AddLabel(PHOTO, ANN), AddLabel(ELSEWHERE, ANN)] }

  function Labelled(): Doc { Run(Recompute(Album()), Actions()) }

  lemma WordsSaid(key: string)
    ensures LastWord(Actions(), key, Silent) == if key == Key(PHOTO, ANN) || key == Key(ELSEWHERE, ANN) then Added else Silent
  {
    var actions, first := Actions(), [AddLabel(PHOTO, ANN)];
    assert actions[..|actions| - 1] == first && actions[|actions| - 1] == AddLabel(ELSEWHERE, ANN);
    assert first[..|first| - 1] == [];
    assert LastWord(first, key, Silent) == Says(first[0], key);
  }

  lemma {:induction false} NoGroups(s: Doc, actions: seq<Action>)
    requires FacesKnown(s) && s.groups == []
    ensures Run(s, actions).groups == [] && Run(s, actions).photos == s.photos
    decreases |actions|
  {
    if actions != [] {
      var init, last := actions[..|actions| - 1], actions[|actions| - 1];
      NoGroups(s, init);
      if Apply(Run(s, init), last).Some? {
        ApplyRecords(Run(s, init), last);
      }
    }
  }

  lemma TwoLabels()
    ensures Labelled().groups == [] && Labelled().photos == [PHOTO]
    ensures forall key :: key in Labelled().labels <==> key == Key(PHOTO, ANN) || key == Key(ELSEWHERE, ANN)
  {
    NoGroups(Recompute(Album()), Actions());
    forall key ensures key in Labelled().labels <==> key == Key(PHOTO, ANN) || key == Key(ELSEWHERE, ANN) {
      FreshSession(Album(), Actions(), key);
      WordsSaid(key);
      assert Proposed(Labelled()) == {};
    }
  }

  lemma Clean()
    ensures CleanId(PHOTO) && CleanId(ANN) && CleanId(ELSEWHERE) && PHOTO != ELSEWHERE
  {
    CleanNames(0);
    assert ELSEWHERE[0] == 'e' && PHOTO[0] == 'p';
  }

  // -------------------------------------------------------------------------
  // Its export
  // -------------------------------------------------------------------------

  lemma {:induction false} NothingHeld(s: Doc, disk: Disk, named: seq<string>, n: nat)
    requires n <= |named| && forall person :: disk.folder(person) != []
    ensures Gather(s, disk, named, n).held == {} && Gather(s, disk, named, n).problems == []
  {
    if n > 0 {
      NothingHeld(s, disk, named, n - 1);
    }
  }

  lemma OnlyAnn()
    ensures Names(Labelled()) == {ANN}
  {
    TwoLabels();
    Clean();
    KeyIsTidy(PHOTO, ANN);
    KeyIsTidy(ELSEWHERE, ANN);
    assert Key(PHOTO, ANN) in Labelled().labels;
  }

  /** She appears in the rows. */
  lemma AnnAppears(disk: Disk, id: string, g: Gathered)
    requires Lists(disk.sorted) && g.held == {}
    ensures Appears(FilesOf(Labelled(), disk, id, g).labels, ANN)
  {
    TwoLabels();
    Clean();
    KeyIsTidy(PHOTO, ANN);
    var keys := disk.sorted(Remaining(Labelled().labels, g.held).Keys);
    assert Key(PHOTO, ANN) in keys;
    var k :| 0 <= k < |keys| && keys[k] == Key(PHOTO, ANN);
    assert LabelRows(keys)[k].person == ANN;
  }

  lemma PassesProblemList(disk: Disk, id: string)
    requires Lists(disk.sorted) && forall person :: disk.folder(person) != []
    ensures Exported(Labelled(), disk, id).Written?
  {
    var s := Labelled();
    OnlyAnn();
    var named := disk.sorted(Names(s));
    assert ANN in named;
    NothingHeld(s, disk, named, |named|);
    var g := Gather(s, disk, named, |named|);
    AnnAppears(disk, id, g);
    var rows := FilesOf(s, disk, id, g).labels;
    forall i | 0 <= i < |named| ensures Appears(rows, named[i]) {
      assert named[i] in named;
    }
    EveryoneAppears(named, rows, |named|);
  }

  /** A real session, on any disk with enrolment images: written without a complaint, refused on loading. */
  lemma WrittenButRefused(disk: Disk, id: string)
    requires Lists(disk.sorted) && RealPaths(disk) && forall person :: disk.folder(person) != []
    ensures Export(Labelled(), disk, id).Written? && Dataset.Load(Export(Labelled(), disk, id).files).Err?
  {
    RunIsSettled(Album(), Actions());
    PassesProblemList(disk, id);
    TwoLabels();
    Clean();
    KeyIsTidy(ELSEWHERE, ANN);
    var named := disk.sorted(Names(Labelled()));
    NothingHeld(Labelled(), disk, named, |named|);
    assert CleanPhotos([PHOTO]);
    UnknownPhotoIsRefused(Labelled(), disk, id, Key(ELSEWHERE, ANN));
  }

  /** And there is such a disk. */
  lemma SomeExportRefused(id: string)
    ensures exists disk: Disk :: Lists(disk.sorted) && Export(Labelled(), disk, id).Written?
                                 && Dataset.Load(Export(Labelled(), disk, id).files).Err?
  {
    WrittenButRefused(SomeDisk(), id);
  }
}
