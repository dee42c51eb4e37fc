/** The signed keep-link: a binary layout, its printer, and its parser. */
module ResultLink {
  import opened Wrappers
  import opened Bytes

  const VERSION := 1
  const MAC_BYTES := 16
  const MAX_LINKED_PHOTOS := 60

  datatype Link = Link(eventId: string, faceIds: seq<string>, expiresAt: int)

  datatype LinkError = ExpiryOutOfRange | NotAUuid | TooShort | Altered | OlderVersion | Expired | Malformed

  /** The truncated keyed hash (section 2 of RFC 2104), about which only its length is known. */
  ghost predicate IsMac(mac: seq<Byte> -> seq<Byte>) {
    forall p :: |mac(p)| == MAC_BYTES
  }

  // -------------------------------------------------------------------------
  // Layout
  // -------------------------------------------------------------------------

  ghost predicate AllSixteen(ids: seq<seq<Byte>>) {
    forall i :: 0 <= i < |ids| ==> |ids[i]| == 16
  }

  function EncodeIds(ids: seq<seq<Byte>>): (b: seq<Byte>) {
    if ids == [] then [] else EncodeIds(ids[..|ids| - 1]) + ids[|ids| - 1]
  }

  function Header(expiry: int, event: seq<Byte>, count: Byte): (b: seq<Byte>)
    requires 0 <= expiry < U32_LIMIT && |event| == 16
    ensures |b| == 22
    ensures b[0] == VERSION && b[1..5] == U32Bytes(expiry) && b[5..21] == event && b[21] == count
  {
    [VERSION] + U32Bytes(expiry) + event + [count]
  }

  function Encode(expiry: int, event: seq<Byte>, ids: seq<seq<Byte>>): (b: seq<Byte>)
    requires 0 <= expiry < U32_LIMIT && |event| == 16 && |ids| < 256
  {
    Header(expiry, event, |ids|) + EncodeIds(ids)
  }

  lemma {:induction false} IdsLength(ids: seq<seq<Byte>>)
    requires AllSixteen(ids)
    ensures |EncodeIds(ids)| == 16 * |ids|
    decreases |ids|
  {
    if ids != [] {
      IdsLength(ids[..|ids| - 1]);
    }
  }

  lemma {:induction false} IdAt(ids: seq<seq<Byte>>, i: nat)
    requires AllSixteen(ids) && i < |ids|
    ensures |EncodeIds(ids)| == 16 * |ids| && EncodeIds(ids)[16 * i..16 * i + 16] == ids[i]
    decreases |ids|
  {
    IdsLength(ids);
    var init := ids[..|ids| - 1];
    IdsLength(init);
    if i < |init| {
      IdAt(init, i);
      assert EncodeIds(ids)[16 * i..16 * i + 16] == EncodeIds(init)[16 * i..16 * i + 16];
    }
  }

  /** Cutting a buffer into sixteens and joining them again. */
  function Cut(b: seq<Byte>, n: nat): (r: seq<seq<Byte>>)
    requires |b| == 16 * n
    ensures |r| == n && AllSixteen(r) && forall i :: 0 <= i < n ==> r[i] == b[16 * i..16 * i + 16]
  {
    seq(n, i requires 0 <= i < n => b[16 * i..16 * i + 16])
  }

  lemma {:induction false} CutJoined(b: seq<Byte>, n: nat)
    requires |b| == 16 * n
    ensures EncodeIds(Cut(b, n)) == b
    decreases n
  {
    if n > 0 {
      var c := b[..16 * (n - 1)];
      CutJoined(c, n - 1);
      var rest := Cut(c, n - 1);
      forall i | 0 <= i < n - 1 ensures Cut(b, n)[i] == rest[i] {
        assert b[16 * i..16 * i + 16] == c[16 * i..16 * i + 16];
      }
      assert Cut(b, n)[..n - 1] == rest;
      assert b == c + b[16 * (n - 1)..16 * n];
    }
  }

  lemma CutOfEncoded(ids: seq<seq<Byte>>)
    requires AllSixteen(ids)
    ensures |EncodeIds(ids)| == 16 * |ids| && Cut(EncodeIds(ids), |ids|) == ids
  {
    IdsLength(ids);
    forall i | 0 <= i < |ids| ensures Cut(EncodeIds(ids), |ids|)[i] == ids[i] {
      IdAt(ids, i);
    }
  }

  // -------------------------------------------------------------------------
  // Signing
  // -------------------------------------------------------------------------

  predicate AllUuids(ids: seq<string>) {
    forall i :: 0 <= i < |ids| ==> IsUuid(ids[i])
  }

  function ManyToBytes(ids: seq<string>): (r: seq<seq<Byte>>)
    requires AllUuids(ids)
    ensures |r| == |ids| && AllSixteen(r) && forall i :: 0 <= i < |ids| ==> r[i] == UuidToBytes(ids[i])
  {
    seq(|ids|, i requires 0 <= i < |ids| => UuidToBytes(ids[i]))
  }

  function ManyToUuids(ids: seq<seq<Byte>>): (r: seq<string>)
    requires forall i :: 0 <= i < |ids| ==> |ids[i]| == 16
    ensures |r| == |ids| && forall i :: 0 <= i < |ids| ==> r[i] == BytesToUuid(ids[i])
  {
    seq(|ids|, i requires 0 <= i < |ids| => BytesToUuid(ids[i]))
  }

  /** The ids a link carries. */
  function Linked(faceIds: seq<string>): (r: seq<string>)
    ensures |r| <= MAX_LINKED_PHOTOS && r <= faceIds
  {
    if |faceIds| <= MAX_LINKED_PHOTOS then faceIds else faceIds[..MAX_LINKED_PHOTOS]
  }

  function Expiry(nowMs: int, ttlSeconds: int): int {
    nowMs / 1000 + ttlSeconds
  }

  function SignedPayload(eventId: string, faceIds: seq<string>, expiry: int): (r: Result<seq<Byte>, LinkError>) {
    if !(0 <= expiry < U32_LIMIT) then Err(ExpiryOutOfRange)
    else if !IsUuid(eventId) || !AllUuids(Linked(faceIds)) then Err(NotAUuid)
    else Ok(Encode(expiry, UuidToBytes(eventId), ManyToBytes(Linked(faceIds))))
  }

  /** Copy `src` into `dst` from offset `at` on. */
  method Copy(src: seq<Byte>, dst: array<Byte>, at: nat)
    requires at + |src| <= dst.Length
    modifies dst
    ensures dst[..at + |src|] == old(dst[..at]) + src
  {
    for k := 0 to |src|
      invariant dst[..at + k] == old(dst[..at]) + src[..k]
    {
      dst[at + k] := src[k];
    }
  }

  method PutHeader(payload: array<Byte>, expiry: int, event: seq<Byte>, count: Byte)
    requires 0 <= expiry < U32_LIMIT && |event| == 16 && payload.Length >= 22
    modifies payload
    ensures payload[..22] == Header(expiry, event, count)
  {
    payload[0] := VERSION;
    assert payload[..1] == [VERSION];
    Copy(U32Bytes(expiry), payload, 1);
    assert payload[..5] == [VERSION] + U32Bytes(expiry);
    Copy(event, payload, 5);
    assert payload[..21] == [VERSION] + U32Bytes(expiry) + event;
    payload[21] := count;
    assert payload[..22] == payload[..21] + [count];
  }

  lemma OneMoreId(header: seq<Byte>, ids: seq<string>, i: nat)
    requires i < |ids| && AllUuids(ids[..i]) && IsUuid(ids[i])
    ensures AllUuids(ids[..i + 1])
    ensures WithIds(header, ids, i + 1) == WithIds(header, ids, i) + UuidToBytes(ids[i])
  {
    assert ids[..i + 1] == ids[..i] + [ids[i]];
    assert ManyToBytes(ids[..i + 1])[..i] == ManyToBytes(ids[..i]);
  }

  /** The buffer once the first `i` ids are in. */
  function WithIds(header: seq<Byte>, ids: seq<string>, i: nat): (b: seq<Byte>)
    requires i <= |ids| && AllUuids(ids[..i])
  {
    header + EncodeIds(ManyToBytes(ids[..i]))
  }

  /** Write the ids from offset 22 on; false at the first that is not one. */
  method PutIds(payload: array<Byte>, ids: seq<string>) returns (ok: bool)
    requires payload.Length == 22 + 16 * |ids|
    modifies payload
    ensures ok == AllUuids(ids)
    ensures ok ==> payload[..] == old(payload[..22]) + EncodeIds(ManyToBytes(ids))
  {
    for i := 0 to |ids|
      invariant AllUuids(ids[..i])
      invariant payload[..22 + 16 * i] == WithIds(old(payload[..22]), ids, i)
    {
      if !IsUuid(ids[i]) {
        return false;
      }
      OneMoreId(old(payload[..22]), ids, i);
      Copy(UuidToBytes(ids[i]), payload, 22 + 16 * i);
    }
    assert ids[..|ids|] == ids && payload[..payload.Length] == payload[..];
    return true;
  }

  /** Fill the buffer field by field, append the MAC. */
  method SignResultLink(eventId: string, faceIds: seq<string>, ttlSeconds: int, nowMs: int, mac: seq<Byte> -> seq<Byte>)
      returns (r: Result<seq<Byte>, LinkError>)
    ensures var payload := SignedPayload(eventId, faceIds, Expiry(nowMs, ttlSeconds));
            r == if payload.Err? then payload else Ok(payload.value + mac(payload.value))
  {
    var ids := Linked(faceIds);
    var expiry := Expiry(nowMs, ttlSeconds);
    var payload := new Byte[1 + 4 + 16 + 1 + |ids| * 16](_ => 0);
    if !(0 <= expiry < U32_LIMIT) {
      return Err(ExpiryOutOfRange);
    }
    if !IsUuid(eventId) {
      return Err(NotAUuid);
    }
    PutHeader(payload, expiry, UuidToBytes(eventId), |ids|);
    var ok := PutIds(payload, ids);
    if !ok {
      return Err(NotAUuid);
    }
    return Ok(payload[..] + mac(payload[..]));
  }

  // -------------------------------------------------------------------------
  // Opening
  // -------------------------------------------------------------------------

  function ExpiryOf(payload: seq<Byte>): int
    requires |payload| >= 22
  {
    ReadU32(payload[1..5])
  }

  function CountOf(payload: seq<Byte>): (n: nat)
    requires |payload| >= 22
  {
    payload[21]
  }

  predicate WellFormed(payload: seq<Byte>) {
    |payload| >= 22 && payload[0] == VERSION && |payload| == 22 + CountOf(payload) * 16
  }

  function FieldsOf(payload: seq<Byte>): (r: Link)
    requires WellFormed(payload)
  {
    Link(BytesToUuid(payload[5..21]), ManyToUuids(Cut(payload[22..], CountOf(payload))), ExpiryOf(payload))
  }

  /** The checks in the order they are made; the first that fails names the error. */
  function Open(raw: seq<Byte>, nowMs: int, mac: seq<Byte> -> seq<Byte>): (r: Result<Link, LinkError>) {
    if |raw| < 22 + MAC_BYTES then Err(TooShort)
    else
      var payload := raw[..|raw| - MAC_BYTES];
      if raw[|raw| - MAC_BYTES..] != mac(payload) then Err(Altered)
      else if payload[0] != VERSION then Err(OlderVersion)
      else if ExpiryOf(payload) * 1000 <= nowMs then Err(Expired)
      else if |payload| != 22 + CountOf(payload) * 16 then Err(Malformed)
      else Ok(FieldsOf(payload))
  }

  method VerifyResultLink(raw: seq<Byte>, nowMs: int, mac: seq<Byte> -> seq<Byte>) returns (r: Result<Link, LinkError>)
    ensures r == Open(raw, nowMs, mac)
  {
    if |raw| < 22 + MAC_BYTES {
      return Err(TooShort);
    }
    var payload := raw[..|raw| - MAC_BYTES];
    var supplied := raw[|raw| - MAC_BYTES..];
    var expected := mac(payload);
    if |supplied| != |expected| || supplied != expected {
      return Err(Altered);
    }
    if payload[0] != VERSION {
      return Err(OlderVersion);
    }
    var expiresAt := ReadU32(payload[1..5]);
    if expiresAt * 1000 <= nowMs {
      return Err(Expired);
    }
    var count := CountOf(payload);
    if |payload| != 22 + count * 16 {
      return Err(Malformed);
    }
    var faceIds: seq<string> := [];
    ghost var parts := Cut(payload[22..], count);
    for i := 0 to count
      invariant faceIds == ManyToUuids(parts)[..i]
    {
      assert payload[22 + i * 16..38 + i * 16] == payload[22..][16 * i..16 * i + 16];
      faceIds := faceIds + [BytesToUuid(payload[22 + i * 16..38 + i * 16])];
    }
    assert faceIds == ManyToUuids(parts);
    return Ok(Link(BytesToUuid(payload[5..21]), faceIds, expiresAt));
  }

  // -------------------------------------------------------------------------
  // Printer against parser
  // -------------------------------------------------------------------------

  lemma HeaderLayout(expiry: int, event: seq<Byte>, ids: seq<seq<Byte>>)
    requires 0 <= expiry < U32_LIMIT && |event| == 16 && |ids| < 256 && AllSixteen(ids)
    ensures var p := Encode(expiry, event, ids);
            && |p| == 22 + 16 * |ids| && p[0] == 1 && HighFirst(p[1], p[2], p[3], p[4]) == expiry
            && p[5..21] == event && p[21] == |ids|
  {
    var header := Header(expiry, event, |ids|);
    BigEndian(expiry);
    IdsLength(ids);
    assert header[1..5][0] == header[1] && header[1..5][1] == header[2] && header[1..5][2] == header[3] && header[1..5][3] == header[4];
  }

  lemma IdLayout(expiry: int, event: seq<Byte>, ids: seq<seq<Byte>>, k: nat)
    requires 0 <= expiry < U32_LIMIT && |event| == 16 && |ids| < 256 && AllSixteen(ids) && k < |ids|
    ensures |Encode(expiry, event, ids)| == 22 + 16 * |ids|
    ensures Encode(expiry, event, ids)[22 + 16 * k..38 + 16 * k] == ids[k]
  {
    IdsLength(ids);
    IdAt(ids, k);
    var p, joined := Encode(expiry, event, ids), EncodeIds(ids);
    assert p[22 + 16 * k..38 + 16 * k] == joined[16 * k..16 * k + 16];
  }

  /** The bytes that are signed, one after the other: the version, the expiry with its high byte first, the event, how
      many ids, and the first sixty ids in order. */
  lemma SignedLayout(eventId: string, faceIds: seq<string>, expiry: int)
    requires SignedPayload(eventId, faceIds, expiry).Ok?
    ensures var p, n := SignedPayload(eventId, faceIds, expiry).value, if |faceIds| <= 60 then |faceIds| else 60;
            && |p| == 22 + 16 * n && p[0] == 1 && HighFirst(p[1], p[2], p[3], p[4]) == expiry && p[21] == n
            && IsUuid(eventId) && p[5..21] == UuidToBytes(eventId)
            && forall k: nat :: k < n ==> IsUuid(faceIds[k]) && p[22 + 16 * k..38 + 16 * k] == UuidToBytes(faceIds[k])
  {
    var ids := ManyToBytes(Linked(faceIds));
    HeaderLayout(expiry, UuidToBytes(eventId), ids);
    forall k: nat | k < |ids|
      ensures IsUuid(faceIds[k])
      ensures Encode(expiry, UuidToBytes(eventId), ids)[22 + 16 * k..38 + 16 * k] == UuidToBytes(faceIds[k])
    {
      IdLayout(expiry, UuidToBytes(eventId), ids, k);
      assert Linked(faceIds)[k] == faceIds[k];
    }
  }

  /** Fields of an encoding are the fields encoded. */
  lemma EncodedFields(expiry: int, event: seq<Byte>, ids: seq<seq<Byte>>)
    requires 0 <= expiry < U32_LIMIT && |event| == 16 && |ids| < 256 && AllSixteen(ids)
    ensures var b := Encode(expiry, event, ids);
            |b| == 22 + 16 * |ids| && b[0] == VERSION && CountOf(b) == |ids| && ExpiryOf(b) == expiry
            && b[5..21] == event && b[22..] == EncodeIds(ids)
  {
    var b := Encode(expiry, event, ids);
    IdsLength(ids);
    U32RoundTrip(expiry);
    var h := Header(expiry, event, |ids|);
    assert b[..22] == h;
    assert b[1..5] == h[1..5] && b[5..21] == h[5..21];
  }

  /** The text form an id comes back in. */
  function Canonical(id: string): (r: string)
    requires IsUuid(id)
  {
    BytesToUuid(UuidToBytes(id))
  }

  function ManyCanonical(ids: seq<string>): (r: seq<string>)
    requires AllUuids(ids)
    ensures |r| == |ids|
  {
    ManyToUuids(ManyToBytes(ids))
  }

  function Reading(eventId: string, faceIds: seq<string>, expiry: int, nowMs: int): (r: Result<Link, LinkError>)
    requires IsUuid(eventId) && AllUuids(Linked(faceIds))
  {
    if expiry * 1000 <= nowMs then Err(Expired)
    else Ok(Link(Canonical(eventId), ManyCanonical(Linked(faceIds)), expiry))
  }

  lemma OpenJoined(payload: seq<Byte>, nowMs: int, mac: seq<Byte> -> seq<Byte>)
    requires IsMac(mac) && WellFormed(payload)
    ensures Open(payload + mac(payload), nowMs, mac)
         == if ExpiryOf(payload) * 1000 <= nowMs then Err(Expired) else Ok(FieldsOf(payload))
  {
    assert |mac(payload)| == MAC_BYTES;
    assert (payload + mac(payload))[..|payload|] == payload;
  }

  /** Signing then opening: the event, the first sixty ids in order and the expiry, until it expires. */
  lemma SignedOpens(eventId: string, faceIds: seq<string>, expiry: int, nowMs: int, mac: seq<Byte> -> seq<Byte>)
    requires IsMac(mac) && SignedPayload(eventId, faceIds, expiry).Ok?
    ensures var p := SignedPayload(eventId, faceIds, expiry).value;
            Open(p + mac(p), nowMs, mac) == Reading(eventId, faceIds, expiry, nowMs)
  {
    var p := SignedPayload(eventId, faceIds, expiry).value;
    var ids := ManyToBytes(Linked(faceIds));
    EncodedFields(expiry, UuidToBytes(eventId), ids);
    CutOfEncoded(ids);
    OpenJoined(p, nowMs, mac);
  }

  ghost predicate AllCanonical(ids: seq<string>) {
    forall i :: 0 <= i < |ids| ==> IsCanonicalUuid(ids[i])
  }

  /** The ids come back letter for letter exactly when they were written canonically. */
  lemma SameTextIff(eventId: string, faceIds: seq<string>, expiry: int, nowMs: int)
    requires IsUuid(eventId) && AllUuids(Linked(faceIds)) && expiry * 1000 > nowMs
    ensures Reading(eventId, faceIds, expiry, nowMs) == Ok(Link(eventId, Linked(faceIds), expiry))
       <==> IsCanonicalUuid(eventId) && AllCanonical(Linked(faceIds))
  {
    var ids := Linked(faceIds);
    UuidTextRoundTripIff(eventId);
    forall i | 0 <= i < |ids| ensures ManyCanonical(ids)[i] == ids[i] <==> IsCanonicalUuid(ids[i]) {
      UuidTextRoundTripIff(ids[i]);
    }
    assert ManyCanonical(ids) == ids <==> forall i :: 0 <= i < |ids| ==> ManyCanonical(ids)[i] == ids[i];
  }

  // -------------------------------------------------------------------------
  // Parser against printer
  // -------------------------------------------------------------------------

  lemma SplitPayload(p: seq<Byte>)
    requires |p| >= 22 && p[0] == VERSION
    ensures p == Header(ExpiryOf(p), p[5..21], p[21]) + p[22..]
  {
    U32Back(p[1..5]);
    assert p[..22] == [p[0]] + p[1..5] + p[5..21] + [p[21]];
  }

  /** The exact link a parsed payload came from. */
  lemma FieldsDetermine(p: seq<Byte>)
    requires WellFormed(p)
    ensures var l := FieldsOf(p);
            IsUuid(l.eventId) && AllUuids(l.faceIds) && |l.faceIds| < 256 && 0 <= l.expiresAt < U32_LIMIT
            && p == Encode(l.expiresAt, UuidToBytes(l.eventId), ManyToBytes(l.faceIds))
  {
    var l := FieldsOf(p);
    var parts := Cut(p[22..], CountOf(p));
    SplitPayload(p);
    CutJoined(p[22..], CountOf(p));
    UuidRoundTrip(p[5..21]);
    forall i | 0 <= i < |parts| ensures IsUuid(l.faceIds[i]) && UuidToBytes(l.faceIds[i]) == parts[i] {
      UuidRoundTrip(parts[i]);
    }
    assert ManyToBytes(l.faceIds) == parts;
  }

  /** Everything an accepted buffer is: the printer's output for the fields read out of it, and their MAC. */
  ghost predicate Prints(raw: seq<Byte>, l: Link, mac: seq<Byte> -> seq<Byte>) {
    IsUuid(l.eventId) && AllUuids(l.faceIds) && |l.faceIds| < 256 && 0 <= l.expiresAt < U32_LIMIT
    && var p := Encode(l.expiresAt, UuidToBytes(l.eventId), ManyToBytes(l.faceIds)); raw == p + mac(p)
  }

  lemma AcceptedPrints(raw: seq<Byte>, nowMs: int, mac: seq<Byte> -> seq<Byte>)
    requires IsMac(mac) && Open(raw, nowMs, mac).Ok?
    ensures var l := Open(raw, nowMs, mac).value;
            Prints(raw, l, mac) && l.expiresAt * 1000 > nowMs && IsCanonicalUuid(l.eventId) && AllCanonical(l.faceIds)
  {
    var p := raw[..|raw| - MAC_BYTES];
    assert raw == p + raw[|raw| - MAC_BYTES..];
    FieldsDetermine(p);
    UuidRoundTrip(p[5..21]);
    var parts := Cut(p[22..], CountOf(p));
    forall i | 0 <= i < |parts| ensures IsCanonicalUuid(BytesToUuid(parts[i])) {
      UuidRoundTrip(parts[i]);
    }
  }

  lemma PrintedIsAccepted(raw: seq<Byte>, l: Link, nowMs: int, mac: seq<Byte> -> seq<Byte>)
    requires IsMac(mac) && Prints(raw, l, mac) && l.expiresAt * 1000 > nowMs
    requires IsCanonicalUuid(l.eventId) && AllCanonical(l.faceIds)
    ensures Open(raw, nowMs, mac) == Ok(l)
  {
    var ids := ManyToBytes(l.faceIds);
    var p := Encode(l.expiresAt, UuidToBytes(l.eventId), ids);
    EncodedFields(l.expiresAt, UuidToBytes(l.eventId), ids);
    CutOfEncoded(ids);
    OpenJoined(p, nowMs, mac);
    UuidTextRoundTripIff(l.eventId);
    forall i | 0 <= i < |ids| ensures BytesToUuid(ids[i]) == l.faceIds[i] {
      UuidTextRoundTripIff(l.faceIds[i]);
    }
    assert ManyToUuids(ids) == l.faceIds;
  }

  /** A buffer opens to a link exactly when it is that link's own, unexpired, printed form. */
  lemma AcceptedIff(raw: seq<Byte>, l: Link, nowMs: int, mac: seq<Byte> -> seq<Byte>)
    requires IsMac(mac)
    ensures Open(raw, nowMs, mac) == Ok(l)
       <==> Prints(raw, l, mac) && l.expiresAt * 1000 > nowMs && IsCanonicalUuid(l.eventId) && AllCanonical(l.faceIds)
  {
    if Open(raw, nowMs, mac) == Ok(l) {
      AcceptedPrints(raw, nowMs, mac);
    } else if Prints(raw, l, mac) && l.expiresAt * 1000 > nowMs && IsCanonicalUuid(l.eventId)
              && AllCanonical(l.faceIds) {
      PrintedIsAccepted(raw, l, nowMs, mac);
      assert false;
    }
  }

  /** Two accepted buffers with the same contents are the same buffer, whenever they are opened. */
  lemma EqualLinksEqualBuffers(a: seq<Byte>, b: seq<Byte>, s: int, t: int, mac: seq<Byte> -> seq<Byte>)
    requires IsMac(mac) && Open(a, s, mac).Ok? && Open(a, s, mac) == Open(b, t, mac)
    ensures a == b
  {
    AcceptedPrints(a, s, mac);
    AcceptedPrints(b, t, mac);
  }

  // -------------------------------------------------------------------------
  // Link text
  // -------------------------------------------------------------------------

  function SignedToken(eventId: string, faceIds: seq<string>, expiry: int, mac: seq<Byte> -> seq<Byte>): (r: Result<string, LinkError>)
  {
    var payload := SignedPayload(eventId, faceIds, expiry);
    if payload.Err? then Err(payload.error) else Ok(Base64Url(payload.value + mac(payload.value)))
  }

  function OpenToken(token: string, nowMs: int, mac: seq<Byte> -> seq<Byte>): (r: Result<Link, LinkError>) {
    Open(FromBase64Url(token), nowMs, mac)
  }

  lemma SignedTokenOpens(eventId: string, faceIds: seq<string>, expiry: int, nowMs: int, mac: seq<Byte> -> seq<Byte>)
    requires IsMac(mac)
    ensures SignedToken(eventId, faceIds, expiry, mac).Ok?
       <==> 0 <= expiry < U32_LIMIT && IsUuid(eventId) && AllUuids(Linked(faceIds))
    ensures SignedToken(eventId, faceIds, expiry, mac).Ok? ==>
              OpenToken(SignedToken(eventId, faceIds, expiry, mac).value, nowMs, mac)
              == Reading(eventId, faceIds, expiry, nowMs)
  {
    var payload := SignedPayload(eventId, faceIds, expiry);
    if payload.Ok? {
      Base64RoundTrip(payload.value + mac(payload.value));
      SignedOpens(eventId, faceIds, expiry, nowMs, mac);
    }
  }
}
