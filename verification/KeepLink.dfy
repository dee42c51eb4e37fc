/** A keep-link over the life of the album it was made for. */
module KeepLink {
  import opened Bytes
  import opened ResultLink
  import opened Wrappers
  import opened Scoring
  import opened Ranking

  /** A stored embedding, known only through its distance to others. */
  type Vector = int

  datatype Face = Face(photo: PhotoId, event: string, vector: Vector)

  datatype Exclusion = Exclusion(event: string, vector: Vector)

  datatype Event = Event(deleteAfterMs: int, faceCount: nat)

  /** `issued` holds every face id the database has ever generated. */
  datatype Album = Album(
    faces: map<string, Face>, ready: set<PhotoId>, exclusions: set<Exclusion>, events: map<string, Event>,
    issued: set<string>)

  const EXCLUSION_RADIUS := 0.32
  const KEEP_LINK_TTL_SECONDS := 7 * 24 * 3600

  ghost predicate Symmetric(distance: (Vector, Vector) -> real) {
    forall v, w :: distance(v, w) == distance(w, v)
  }

  predicate Excluded(db: Album, distance: (Vector, Vector) -> real, f: Face) {
    exists x :: x in db.exclusions && x.event == f.event && distance(x.vector, f.vector) < EXCLUSION_RADIUS
  }

  /** The filter a search and an opened link share. */
  predicate Visible(db: Album, distance: (Vector, Vector) -> real, event: string, id: string) {
    && id in db.faces && db.faces[id].event == event && db.faces[id].photo in db.ready
    && !Excluded(db, distance, db.faces[id])
  }

  /** photosForFaces: one result for each listed face that passes the filter. */
  function PhotosForFaces(db: Album, distance: (Vector, Vector) -> real, event: string, ids: seq<string>): (r: set<string>) {
    set id | id in ids && Visible(db, distance, event, id)
  }

  // -------------------------------------------------------------------------
  // Making a link
  // -------------------------------------------------------------------------

  /** Every row a search ranks is a visible face of the event.  Nothing is asked about completeness or order. */
  ghost predicate SearchRows(db: Album, distance: (Vector, Vector) -> real, event: string, rows: seq<FaceRow>) {
    forall i :: 0 <= i < |rows| ==>
      Visible(db, distance, event, rows[i].face) && db.faces[rows[i].face].photo == rows[i].photo
  }

  function FacesOf(confident: seq<Match>): (r: seq<string>)
    ensures |r| == |confident| && forall k :: 0 <= k < |r| ==> r[k] == confident[k].face
  {
    seq(|confident|, k requires 0 <= k < |confident| => confident[k].face)
  }

  /** Seconds the link lives: a week, or what the album has left. */
  function TimeToLive(deleteAfterMs: int, nowMs: int): (r: int) {
    var left := (deleteAfterMs - nowMs) / 1000;
    if KEEP_LINK_TTL_SECONDS <= left then KEEP_LINK_TTL_SECONDS else left
  }

  /** The clock is read once for the time to live and once more while signing. */
  function LinkExpiry(deleteAfterMs: int, askedMs: int, signedMs: int): (r: int) {
    Expiry(signedMs, TimeToLive(deleteAfterMs, askedMs))
  }

  /** What the two divisions drop, in milliseconds: the odd ones of the second reading, and of what the album
      had left the odd ones or, at the cap, everything beyond the week. */
  function Dropped(deleteAfterMs: int, askedMs: int, signedMs: int): (r: int)
    ensures r >= 0
  {
    var left := deleteAfterMs - askedMs;
    signedMs % 1000 + if left / 1000 <= KEEP_LINK_TTL_SECONDS then left % 1000 else left - KEEP_LINK_TTL_SECONDS * 1000
  }

  /** When a link expires: at the album's date, later by the time between the two clock readings, earlier by
      what is dropped; and never more than a week after it is signed. */
  lemma ExpiryIs(deleteAfterMs: int, askedMs: int, signedMs: int)
    ensures LinkExpiry(deleteAfterMs, askedMs, signedMs) * 1000
         == deleteAfterMs + (signedMs - askedMs) - Dropped(deleteAfterMs, askedMs, signedMs)
    ensures LinkExpiry(deleteAfterMs, askedMs, signedMs) * 1000 <= signedMs + KEEP_LINK_TTL_SECONDS * 1000
  {
    var left := deleteAfterMs - askedMs;
    assert signedMs == signedMs / 1000 * 1000 + signedMs % 1000;
    assert left == left / 1000 * 1000 + left % 1000;
  }

  /** Whether a link is still good when its album's date has passed. */
  predicate Outlives(deleteAfterMs: int, askedMs: int, signedMs: int) {
    LinkExpiry(deleteAfterMs, askedMs, signedMs) * 1000 > deleteAfterMs
  }

  /** A link outlives its album exactly when more time passes between the two readings than is dropped. */
  lemma OutlivesIff(deleteAfterMs: int, askedMs: int, signedMs: int)
    ensures Outlives(deleteAfterMs, askedMs, signedMs) <==> signedMs - askedMs > Dropped(deleteAfterMs, askedMs, signedMs)
  {
    ExpiryIs(deleteAfterMs, askedMs, signedMs);
  }

  /** One millisecond is enough. */
  lemma OneMillisecondOutlives()
    ensures Outlives(1999, 999, 1000)
  {
  }

  // -------------------------------------------------------------------------
  // Opening a link
  // -------------------------------------------------------------------------

  datatype Page = BadLink(error: LinkError) | AlbumGone | NotFound | Photos(faces: set<string>)

  /** The page behind a keep-link; `event` is the id the address's slug names, if any. */
  function KeptPhotos(db: Album, distance: (Vector, Vector) -> real, event: string, token: string, nowMs: int,
                      mac: seq<Byte> -> seq<Byte>): (r: Page)
  {
    var link := OpenToken(token, nowMs, mac);
    if link.Err? then BadLink(link.error)
    else if !IsOpen(db, event, nowMs) then AlbumGone
    else if event != link.value.eventId then NotFound
    else Photos(PhotosForFaces(db, distance, event, link.value.faceIds))
  }

  // -------------------------------------------------------------------------
  // What happens to an album
  // -------------------------------------------------------------------------

  datatype Change =
    | OptOut(event: string, vector: Vector)
    | Reindex(photo: PhotoId, event: string, added: map<string, Vector>)
    | SetReady(photo: PhotoId, ready: bool)
    | Retire(event: string)

  predicate Purges(distance: (Vector, Vector) -> real, event: string, vector: Vector, f: Face) {
    f.event == event && distance(f.vector, vector) < EXCLUSION_RADIUS
  }

  function Purged(faces: map<string, Face>, distance: (Vector, Vector) -> real, event: string, vector: Vector): (r: set<string>) {
    set id | id in faces && Purges(distance, event, vector, faces[id])
  }

  function CountDown(count: nat, removed: nat): (r: nat) {
    if count < removed then 0 else count - removed
  }

  /** The opt-out transaction: purge, register, count down. */
  function PurgeAndRegister(db: Album, distance: (Vector, Vector) -> real, event: string, vector: Vector): (r: Album) {
    var gone := Purged(db.faces, distance, event, vector);
    db.(faces := db.faces - gone,
        exclusions := db.exclusions + {Exclusion(event, vector)},
        events := if event in db.events
                  then db.events[event := db.events[event].(faceCount := CountDown(db.events[event].faceCount, |gone|))]
                  else db.events)
  }

  /** replace_faces: the photograph's rows go, the new ones come under new ids. */
  function Replaced(db: Album, photo: PhotoId, event: string, added: map<string, Vector>): (r: Album) {
    db.(faces := (db.faces - set id | id in db.faces && db.faces[id].photo == photo)
                 + (map id | id in added :: Face(photo, event, added[id])),
        issued := db.issued + added.Keys)
  }

  function Retired(db: Album, event: string): (r: Album) {
    db.(faces := db.faces - (set id | id in db.faces && db.faces[id].event == event),
        exclusions := (set x | x in db.exclusions && x.event != event),
        events := db.events - {event})
  }

  function Next(db: Album, distance: (Vector, Vector) -> real, c: Change): (r: Album) {
    match c
    case OptOut(event, vector) => PurgeAndRegister(db, distance, event, vector)
    case Reindex(photo, event, added) => Replaced(db, photo, event, added)
    case SetReady(photo, ready) => db.(ready := if ready then db.ready + {photo} else db.ready - {photo})
    case Retire(event) => Retired(db, event)
  }

  function Run(db: Album, distance: (Vector, Vector) -> real, changes: seq<Change>): (r: Album) {
    if changes == [] then db else Next(Run(db, distance, changes[..|changes| - 1]), distance, changes[|changes| - 1])
  }

  /** Generated ids never repeat. */
  ghost predicate FreshIds(db: Album, distance: (Vector, Vector) -> real, changes: seq<Change>) {
    forall k :: 0 <= k < |changes| && changes[k].Reindex? ==>
      Run(db, distance, changes[..k]).issued !! changes[k].added.Keys
  }

  ghost predicate Valid(db: Album) {
    db.faces.Keys <= db.issued
  }

  // -------------------------------------------------------------------------
  // A face over a run
  // -------------------------------------------------------------------------

  /** The change deletes the face: an opt-out near it, a re-index of its photograph, or retirement. */
  ghost predicate Deletes(distance: (Vector, Vector) -> real, c: Change, f: Face) {
    match c
    case OptOut(event, vector) => Purges(distance, event, vector, f)
    case Reindex(photo, _, _) => photo == f.photo
    case SetReady(_, _) => false
    case Retire(event) => event == f.event
  }

  ghost predicate SomeDeletes(distance: (Vector, Vector) -> real, changes: seq<Change>, f: Face) {
    exists k :: 0 <= k < |changes| && Deletes(distance, changes[k], f)
  }

  lemma SomeDeletesSnoc(distance: (Vector, Vector) -> real, changes: seq<Change>, f: Face)
    requires changes != []
    ensures SomeDeletes(distance, changes, f)
       <==> SomeDeletes(distance, changes[..|changes| - 1], f) || Deletes(distance, changes[|changes| - 1], f)
  {
    var init := changes[..|changes| - 1];
    if SomeDeletes(distance, init, f) {
      var k :| 0 <= k < |init| && Deletes(distance, init[k], f);
      assert Deletes(distance, changes[k], f);
    }
    if SomeDeletes(distance, changes, f) && !Deletes(distance, changes[|changes| - 1], f) {
      var k :| 0 <= k < |changes| && Deletes(distance, changes[k], f);
      assert Deletes(distance, init[k], f);
    }
  }

  /** The face is there, unchanged, and clear of the registry. */
  ghost predicate Lives(db: Album, distance: (Vector, Vector) -> real, id: string, f: Face) {
    id in db.faces && db.faces[id] == f && !Excluded(db, distance, f)
  }

  ghost predicate Dead(db: Album, id: string) {
    id !in db.faces && id in db.issued
  }

  lemma ChangeOfAFace(db: Album, distance: (Vector, Vector) -> real, c: Change, id: string, f: Face)
    requires Symmetric(distance) && Valid(db) && (c.Reindex? ==> db.issued !! c.added.Keys)
    ensures Valid(Next(db, distance, c))
    ensures Lives(db, distance, id, f) && !Deletes(distance, c, f) ==> Lives(Next(db, distance, c), distance, id, f)
    ensures Lives(db, distance, id, f) && Deletes(distance, c, f) ==> Dead(Next(db, distance, c), id)
    ensures Dead(db, id) ==> Dead(Next(db, distance, c), id)
  {
    var after := Next(db, distance, c);
    if Lives(db, distance, id, f) && !Deletes(distance, c, f) {
      assert id in db.issued;
      forall x | x in after.exclusions && x.event == f.event ensures distance(x.vector, f.vector) >= EXCLUSION_RADIUS {
        if x !in db.exclusions {
          assert c.OptOut? && x == Exclusion(c.event, c.vector);
          assert distance(x.vector, f.vector) == distance(f.vector, c.vector);
        }
      }
    }
  }

  lemma {:induction false} FaceOverRun(db: Album, distance: (Vector, Vector) -> real, changes: seq<Change>, id: string, f: Face)
    requires Symmetric(distance) && Valid(db) && FreshIds(db, distance, changes)
    requires Lives(db, distance, id, f)
    ensures var after := Run(db, distance, changes);
            Valid(after) && if SomeDeletes(distance, changes, f) then Dead(after, id) else Lives(after, distance, id, f)
    decreases |changes|
  {
    if changes != [] {
      var init, last := changes[..|changes| - 1], changes[|changes| - 1];
      assert forall k :: 0 <= k < |init| ==> init[..k] == changes[..k];
      FaceOverRun(db, distance, init, id, f);
      SomeDeletesSnoc(distance, changes, f);
      assert last.Reindex? ==> Run(db, distance, init).issued !! last.added.Keys;
      ChangeOfAFace(Run(db, distance, init), distance, last, id, f);
    }
  }

  /** A face shown at first is shown after any run exactly when nothing in between deleted it and
      its photograph is indexed at the end. */
  lemma StillShownIff(db: Album, distance: (Vector, Vector) -> real, changes: seq<Change>, event: string, id: string)
    requires Symmetric(distance) && Valid(db) && FreshIds(db, distance, changes)
    requires Visible(db, distance, event, id)
    ensures var f, after := db.faces[id], Run(db, distance, changes);
            (Visible(after, distance, event, id) <==> !SomeDeletes(distance, changes, f) && f.photo in after.ready)
            && (Visible(after, distance, event, id) ==> after.faces[id] == f)
  {
    FaceOverRun(db, distance, changes, id, db.faces[id]);
  }

  // -------------------------------------------------------------------------
  // The link itself
  // -------------------------------------------------------------------------

  ghost predicate CanonicalIds(db: Album) {
    forall id :: id in db.faces ==> IsCanonicalUuid(id)
  }

  lemma CanonicalIsUuid(s: string)
    requires IsCanonicalUuid(s)
    ensures IsUuid(s)
  {
    var hex: string :| |hex| == 32 && LowerHex(hex) && s == Hyphenate(hex);
    HyphenateUndone(hex);
  }

  lemma ConfidentFace(db: Album, distance: (Vector, Vector) -> real, event: string, rows: seq<FaceRow>, t: Thresholds,
                      confident: seq<Match>, maybe: seq<Match>, k: nat)
    requires SearchRows(db, distance, event, rows) && IsRanking(rows, t, confident, maybe) && k < |confident|
    ensures Visible(db, distance, event, confident[k].face)
    ensures db.faces[confident[k].face].photo == confident[k].photo
  {
    assert RightMatch(rows, t, confident[k]);
  }

  /** The link a search returns: the confident faces, signed. */
  ghost predicate IsKeepLink(event: string, confident: seq<Match>, expiry: int, mac: seq<Byte> -> seq<Byte>, token: string) {
    SignedToken(event, FacesOf(confident), expiry, mac) == Ok(token)
  }

  /** What the link carries, read back. */
  lemma LinkContents(db: Album, distance: (Vector, Vector) -> real, event: string, rows: seq<FaceRow>, t: Thresholds,
                     confident: seq<Match>, maybe: seq<Match>, expiry: int, mac: seq<Byte> -> seq<Byte>, token: string, nowMs: int)
    requires IsMac(mac) && IsCanonicalUuid(event) && CanonicalIds(db)
    requires SearchRows(db, distance, event, rows) && IsRanking(rows, t, confident, maybe)
    requires IsKeepLink(event, confident, expiry, mac, token) && expiry * 1000 > nowMs
    ensures OpenToken(token, nowMs, mac) == Ok(Link(event, Linked(FacesOf(confident)), expiry))
  {
    var ids := Linked(FacesOf(confident));
    forall k: nat | k < |ids| ensures IsCanonicalUuid(ids[k]) {
      ConfidentFace(db, distance, event, rows, t, confident, maybe, k);
    }
    forall k: nat | k < |ids| ensures IsUuid(ids[k]) {
      CanonicalIsUuid(ids[k]);
    }
    CanonicalIsUuid(event);
    SignedTokenOpens(event, FacesOf(confident), expiry, nowMs, mac);
    SameTextIff(event, FacesOf(confident), expiry, nowMs);
  }

  /** Signing the confident faces of a search fails only for an expiry outside 32 bits. */
  lemma LinkIsMadeIff(db: Album, distance: (Vector, Vector) -> real, event: string, rows: seq<FaceRow>, t: Thresholds,
                      confident: seq<Match>, maybe: seq<Match>, expiry: int, mac: seq<Byte> -> seq<Byte>)
    requires IsMac(mac) && IsCanonicalUuid(event) && CanonicalIds(db)
    requires SearchRows(db, distance, event, rows) && IsRanking(rows, t, confident, maybe)
    ensures SignedToken(event, FacesOf(confident), expiry, mac).Ok? <==> 0 <= expiry < U32_LIMIT
  {
    var ids := Linked(FacesOf(confident));
    forall k: nat | k < |ids| ensures IsUuid(ids[k]) {
      ConfidentFace(db, distance, event, rows, t, confident, maybe, k);
      CanonicalIsUuid(ids[k]);
    }
    CanonicalIsUuid(event);
    SignedTokenOpens(event, FacesOf(confident), expiry, 0, mac);
  }

  /** The photograph `photo` is on the page exactly once. */
  ghost predicate ShownOnce(db: Album, shown: set<string>, photo: PhotoId) {
    exists id :: id in shown && IsOnly(db, shown, photo, id)
  }

  ghost predicate IsOnly(db: Album, shown: set<string>, photo: PhotoId, id: string) {
    id in db.faces && db.faces[id].photo == photo &&
    forall other :: other in shown && other in db.faces && db.faces[other].photo == photo ==> other == id
  }

  ghost predicate NotShown(db: Album, shown: set<string>, photo: PhotoId) {
    forall id :: id in shown && id in db.faces ==> db.faces[id].photo != photo
  }

  /** The confident entry `k` on the page after the run: once if its face and photograph are still there. */
  ghost predicate EntryShown(db: Album, distance: (Vector, Vector) -> real, changes: seq<Change>, m: Match, shown: set<string>)
    requires m.face in db.faces
  {
    var after := Run(db, distance, changes);
    if !SomeDeletes(distance, changes, db.faces[m.face]) && m.photo in after.ready
    then ShownOnce(after, shown, m.photo) else NotShown(after, shown, m.photo)
  }

  /** Everything on the page comes from one of the linked entries. */
  lemma ShownIsLinked(db: Album, distance: (Vector, Vector) -> real, event: string, rows: seq<FaceRow>, t: Thresholds,
                      confident: seq<Match>, maybe: seq<Match>, changes: seq<Change>, id: string)
    requires Symmetric(distance) && Valid(db) && FreshIds(db, distance, changes)
    requires SearchRows(db, distance, event, rows) && IsRanking(rows, t, confident, maybe)
    requires id in PhotosForFaces(Run(db, distance, changes), distance, event, Linked(FacesOf(confident)))
    ensures exists k :: 0 <= k < |confident| && k < MAX_LINKED_PHOTOS && confident[k].face == id
                        && Run(db, distance, changes).faces[id].photo == confident[k].photo
  {
    var ids := Linked(FacesOf(confident));
    var k: nat :| k < |ids| && ids[k] == id;
    ConfidentFace(db, distance, event, rows, t, confident, maybe, k);
    StillShownIff(db, distance, changes, event, id);
    assert confident[k].face == id;
  }

  lemma EntryAfterRun(db: Album, distance: (Vector, Vector) -> real, event: string, rows: seq<FaceRow>, t: Thresholds,
                      confident: seq<Match>, maybe: seq<Match>, changes: seq<Change>, k: nat)
    requires Symmetric(distance) && Valid(db) && FreshIds(db, distance, changes)
    requires SearchRows(db, distance, event, rows) && IsRanking(rows, t, confident, maybe)
    requires k < |confident| && k < MAX_LINKED_PHOTOS
    ensures confident[k].face in db.faces
    ensures EntryShown(db, distance, changes, confident[k],
                       PhotosForFaces(Run(db, distance, changes), distance, event, Linked(FacesOf(confident))))
  {
    var m, after := confident[k], Run(db, distance, changes);
    var shown := PhotosForFaces(after, distance, event, Linked(FacesOf(confident)));
    ConfidentFace(db, distance, event, rows, t, confident, maybe, k);
    StillShownIff(db, distance, changes, event, m.face);
    assert Linked(FacesOf(confident))[k] == m.face;
    forall other | other in shown && after.faces[other].photo == m.photo ensures other == m.face {
      ShownIsLinked(db, distance, event, rows, t, confident, maybe, changes, other);
    }
    if Visible(after, distance, event, m.face) {
      assert IsOnly(after, shown, m.photo, m.face);
    }
  }

  /** Whatever happens to the album after the link is made, opening it before it expires, at its own
      album, shows of the first sixty confident photographs exactly those still there, each once; no other
      photograph; and no face near any exclusion of that moment. */
  lemma LinkThroughout(db: Album, distance: (Vector, Vector) -> real, event: string, rows: seq<FaceRow>, t: Thresholds,
                       confident: seq<Match>, maybe: seq<Match>, expiry: int, mac: seq<Byte> -> seq<Byte>, token: string,
                       changes: seq<Change>, nowMs: int)
    requires IsMac(mac) && IsCanonicalUuid(event) && CanonicalIds(db)
    requires Symmetric(distance) && Valid(db) && FreshIds(db, distance, changes)
    requires SearchRows(db, distance, event, rows) && IsRanking(rows, t, confident, maybe)
    requires IsKeepLink(event, confident, expiry, mac, token) && expiry * 1000 > nowMs
    ensures var after := Run(db, distance, changes);
            var page := KeptPhotos(after, distance, event, token, nowMs, mac);
            if !IsOpen(after, event, nowMs) then page == AlbumGone
            else
              && page.Photos?
              && (forall k :: 0 <= k < |confident| && k < MAX_LINKED_PHOTOS ==>
                    confident[k].face in db.faces && EntryShown(db, distance, changes, confident[k], page.faces))
              && (forall id :: id in page.faces ==> OnPage(after, distance, event, confident, id))
  {
    LinkContents(db, distance, event, rows, t, confident, maybe, expiry, mac, token, nowMs);
    var after := Run(db, distance, changes);
    if IsOpen(after, event, nowMs) {
      var shown := PhotosForFaces(after, distance, event, Linked(FacesOf(confident)));
      forall k: nat | k < |confident| && k < MAX_LINKED_PHOTOS
        ensures confident[k].face in db.faces && EntryShown(db, distance, changes, confident[k], shown)
      {
        EntryAfterRun(db, distance, event, rows, t, confident, maybe, changes, k);
      }
      forall id | id in shown ensures OnPage(after, distance, event, confident, id) {
        ShownIsLinked(db, distance, event, rows, t, confident, maybe, changes, id);
      }
    }
  }

  /** A face on the page: the event's own, of one of the first sixty confident photographs, in an indexed photograph,
      and near no exclusion. */
  ghost predicate OnPage(db: Album, distance: (Vector, Vector) -> real, event: string, confident: seq<Match>, id: string) {
    && id in db.faces && db.faces[id].event == event && db.faces[id].photo in db.ready && !Excluded(db, distance, db.faces[id])
    && exists k :: 0 <= k < |confident| && k < MAX_LINKED_PHOTOS && confident[k].face == id && db.faces[id].photo == confident[k].photo
  }

  /** Nothing happened in between: all of the first sixty, each once. */
  lemma LinkUnchangedAlbum(db: Album, distance: (Vector, Vector) -> real, event: string, rows: seq<FaceRow>, t: Thresholds,
                           confident: seq<Match>, maybe: seq<Match>, expiry: int, mac: seq<Byte> -> seq<Byte>, token: string, nowMs: int)
    requires IsMac(mac) && IsCanonicalUuid(event) && CanonicalIds(db) && Symmetric(distance) && Valid(db)
    requires SearchRows(db, distance, event, rows) && IsRanking(rows, t, confident, maybe)
    requires IsKeepLink(event, confident, expiry, mac, token) && expiry * 1000 > nowMs
    requires IsOpen(db, event, nowMs)
    ensures var page := KeptPhotos(db, distance, event, token, nowMs, mac);
            page.Photos? && forall k :: 0 <= k < |confident| && k < MAX_LINKED_PHOTOS ==> ShownOnce(db, page.faces, confident[k].photo)
  {
    LinkThroughout(db, distance, event, rows, t, confident, maybe, expiry, mac, token, [], nowMs);
    var shown := KeptPhotos(db, distance, event, token, nowMs, mac).faces;
    forall k: nat | k < |confident| && k < MAX_LINKED_PHOTOS ensures ShownOnce(db, shown, confident[k].photo) {
      ConfidentFace(db, distance, event, rows, t, confident, maybe, k);
      assert EntryShown(db, distance, [], confident[k], shown);
    }
  }

  predicate IsOpen(db: Album, event: string, nowMs: int) {
    event in db.events && db.events[event].deleteAfterMs > nowMs
  }

  /** Whatever happens to the albums after a link is made: it opens exactly until it expires, at its own
      album, while that exists. */
  lemma LinkOpensIff(db: Album, distance: (Vector, Vector) -> real, event: string, rows: seq<FaceRow>, t: Thresholds,
                     confident: seq<Match>, maybe: seq<Match>, expiry: int, mac: seq<Byte> -> seq<Byte>, token: string,
                     changes: seq<Change>, door: string, nowMs: int)
    requires IsMac(mac) && IsCanonicalUuid(event) && CanonicalIds(db)
    requires SearchRows(db, distance, event, rows) && IsRanking(rows, t, confident, maybe)
    requires IsKeepLink(event, confident, expiry, mac, token)
    ensures KeptPhotos(Run(db, distance, changes), distance, door, token, nowMs, mac).Photos?
       <==> expiry * 1000 > nowMs && door == event && IsOpen(Run(db, distance, changes), door, nowMs)
  {
    if expiry * 1000 > nowMs {
      LinkContents(db, distance, event, rows, t, confident, maybe, expiry, mac, token, nowMs);
    } else {
      ExpiredLink(event, FacesOf(confident), expiry, mac, token, nowMs);
    }
  }

  lemma ExpiredLink(event: string, faces: seq<string>, expiry: int, mac: seq<Byte> -> seq<Byte>, token: string, nowMs: int)
    requires IsMac(mac) && SignedToken(event, faces, expiry, mac) == Ok(token) && expiry * 1000 <= nowMs
    ensures OpenToken(token, nowMs, mac) == Err(Expired)
  {
    SignedTokenOpens(event, faces, expiry, nowMs, mac);
  }

  // -------------------------------------------------------------------------
  // Opting out
  // -------------------------------------------------------------------------

  function FacesIn(db: Album, event: string): (r: set<string>) {
    set id | id in db.faces && db.faces[id].event == event
  }

  ghost predicate CountAgrees(db: Album, event: string) {
    event in db.events && db.events[event].faceCount == |FacesIn(db, event)|
  }

  /** The event's counter agrees with its rows after an opt-out exactly when it did before, or when it was
      too low and every face of the event is within the radius, so that both end at zero. */
  lemma OptOutCountIff(db: Album, distance: (Vector, Vector) -> real, event: string, vector: Vector)
    requires event in db.events
    ensures CountAgrees(PurgeAndRegister(db, distance, event, vector), event)
       <==> CountAgrees(db, event)
            || (db.events[event].faceCount < |FacesIn(db, event)|
                && forall id :: id in FacesIn(db, event) ==> distance(db.faces[id].vector, vector) < EXCLUSION_RADIUS)
  {
    var after := PurgeAndRegister(db, distance, event, vector);
    var gone := Purged(db.faces, distance, event, vector);
    assert FacesIn(after, event) == FacesIn(db, event) - gone && gone <= FacesIn(db, event);
  }

  /** Rows outside `todo` have been looked at. */
  ghost predicate PurgedSoFar(before: map<string, Face>, distance: (Vector, Vector) -> real, event: string, vector: Vector,
                              todo: set<string>, faces: map<string, Face>, removed: set<string>, photos: set<PhotoId>)
  {
    && todo <= before.Keys
    && removed == Purged(before, distance, event, vector) - todo
    && faces == before - removed
    && photos == PhotosOf(before, removed)
  }

  function PhotosOf(faces: map<string, Face>, ids: set<string>): (r: set<PhotoId>)
    requires ids <= faces.Keys
  {
    set id | id in ids :: faces[id].photo
  }

  lemma PurgeStep(before: map<string, Face>, distance: (Vector, Vector) -> real, event: string, vector: Vector,
                  todo: set<string>, faces: map<string, Face>, removed: set<string>, photos: set<PhotoId>, id: string)
    requires PurgedSoFar(before, distance, event, vector, todo, faces, removed, photos) && id in todo
    ensures id in faces
    ensures if Purges(distance, event, vector, faces[id])
            then PurgedSoFar(before, distance, event, vector, todo - {id}, faces - {id}, removed + {id}, photos + {faces[id].photo})
            else PurgedSoFar(before, distance, event, vector, todo - {id}, faces, removed, photos)
  {
    if Purges(distance, event, vector, faces[id]) {
      assert removed + {id} == Purged(before, distance, event, vector) - (todo - {id});
      assert faces - {id} == before - (removed + {id});
      assert PhotosOf(before, removed + {id}) == PhotosOf(before, removed) + {before[id].photo};
    }
  }

  /** Album tables, updated in place by the opt-out route. */
  class Registry {
    var faces: map<string, Face>
    var ready: set<PhotoId>
    var exclusions: set<Exclusion>
    var events: map<string, Event>
    ghost var issued: set<string>

    ghost function Contents(): (r: Album)
      reads this
    {
      Album(faces, ready, exclusions, events, issued)
    }

    /** Delete the event's faces in the radius. */
    method Purge(distance: (Vector, Vector) -> real, event: string, vector: Vector) returns (removed: set<string>, photos: set<PhotoId>)
      modifies this`faces
      ensures removed == Purged(old(faces), distance, event, vector) && faces == old(faces) - removed
      ensures photos == PhotosOf(old(faces), removed)
    {
      photos, removed := {}, {};
      var todo := faces.Keys;
      while todo != {}
        invariant PurgedSoFar(old(faces), distance, event, vector, todo, faces, removed, photos)
        decreases todo
      {
        var id :| id in todo;
        PurgeStep(old(faces), distance, event, vector, todo, faces, removed, photos, id);
        if Purges(distance, event, vector, faces[id]) {
          photos := photos + {faces[id].photo};
          removed := removed + {id};
          faces := faces - {id};
        }
        todo := todo - {id};
      }
    }

    /** The purge-and-register transaction, and the two numbers it reports. */
    method OptOut(distance: (Vector, Vector) -> real, event: string, vector: Vector) returns (facesRemoved: nat, photosAffected: nat)
      modifies this
      ensures Contents() == PurgeAndRegister(old(Contents()), distance, event, vector)
      ensures var gone := Purged(old(faces), distance, event, vector);
              facesRemoved == |gone| && photosAffected == |PhotosOf(old(faces), gone)|
    {
      var removed, photos := Purge(distance, event, vector);
      exclusions := exclusions + {Exclusion(event, vector)};
      if event in events {
        events := events[event := events[event].(faceCount := CountDown(events[event].faceCount, |removed|))];
      }
      facesRemoved, photosAffected := |removed|, |photos|;
    }
  }
}
