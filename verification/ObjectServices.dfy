/** The object service: every public operation as one step over its rows and its storage. */
module ObjectServices {
  import opened ObjectStores
  import opened Streams
  import opened UploadParts
  import opened Wrappers

  const MAX_SAFE_INTEGER := 9007199254740991
  const PNG_MIME := "image/png"
  const PURPOSES := ["note-image", "clipboard-image", "screenshot"]

  datatype Error =
    | Invalid(field: string) | NotFound | UploadExpired | TransferLimit
    | Unverified(reason: string) | PartConflict | UploadIncomplete | StorageUnavailable | ObjectGone

  /** What a client declares; its digest is absent when it is not in a known notation. */
  datatype Declaration = Declaration(digest: Option<Digest>, bytes: int, mimeType: string, purpose: string)

  function Refusal(d: Declaration): Option<Error> {
    if d.digest.None? then Some(Invalid("digest"))
    else if d.bytes > MAX_SAFE_INTEGER || d.bytes < |PNG_SIGNATURE| then Some(Invalid("bytes"))
    else if d.mimeType != PNG_MIME then Some(Invalid("mimeType"))
    else if d.purpose !in PURPOSES then Some(Invalid("purpose"))
    else if PartCount(d.bytes) > MAX_PARTS then Some(Invalid("bytes"))
    else None
  }

  /** The upload a request is about, if it may go on with it. */
  function Required(uploads: Uploads, client: Client, id: Id, now: int, allowComplete: bool): Result<Upload, Error> {
    if id !in uploads || uploads[id].owner != client then Err(NotFound)
    else if uploads[id].expiresAt <= now && uploads[id].status.Open? then Err(UploadExpired)
    else if uploads[id].status.Complete? && allowComplete then Ok(uploads[id])
    else if !uploads[id].status.Open? then Err(NotFound)
    else Ok(uploads[id])
  }

  /** Looking at an upload that has run out of time ends it. */
  function Looked(uploads: Uploads, client: Client, id: Id, now: int): Uploads {
    if Required(uploads, client, id, now, true) == Err(UploadExpired) then
       uploads[id := uploads[id].(status := Expired)] else uploads
  }

  predicate IsReferenceChar(c: char) {
    'A' <= c <= 'Z' || 'a' <= c <= 'z' || '0' <= c <= '9' || c == ':' || c == '_' || c == '-'
  }

  predicate IsReferenceId(s: string) {
    1 <= |s| <= 160 && forall i :: 0 <= i < |s| ==> IsReferenceChar(s[i])
  }

  predicate AllDistinct(ids: seq<Id>) {
    forall i, j :: 0 <= i < j < |ids| ==> ids[i] != ids[j]
  }

  function LaterOf(current: Option<int>, deadline: Option<int>): Option<int> {
    if deadline.Some? && (current.None? || current.value < deadline.value) then deadline else current
  }

  // ---------------------------------------------------------------- the decisions, spelled out

  /**
    Which declarations are admitted and what is said about the others, first things first: a known
    digest, at least a signature and at most a safe integer, the one type, a known purpose, and at most
    10000 parts of 8 MiB.
   */
  lemma DeclarationsExactly(d: Declaration)
    ensures var small := 8 <= d.bytes <= 9007199254740991;
            var purpose := d.purpose == "note-image" || d.purpose == "clipboard-image" || d.purpose == "screenshot";
            && (Refusal(d) == Some(Invalid("digest")) <==> d.digest.None?)
            && (Refusal(d) == Some(Invalid("mimeType")) <==> d.digest.Some? && small && d.mimeType != "image/png")
            && (Refusal(d) == Some(Invalid("purpose")) <==>
                d.digest.Some? && small && d.mimeType == "image/png" && !purpose)
            && (Refusal(d) == Some(Invalid("bytes")) <==>
                d.digest.Some? && (!small || (d.mimeType == "image/png" && purpose && d.bytes > 10000 * 8388608)))
            && (Refusal(d).None? <==>
                && d.digest.Some? && d.mimeType == "image/png" && purpose && 8 <= d.bytes <= 10000 * 8388608)
  {
    assert d.bytes > 0 ==> (PartCount(d.bytes) > 10000 <==> d.bytes > 10000 * 8388608);
  }

  /** Which requests about an upload go on, what the others are told, and which of them end the upload. */
  lemma RequiredExactly(uploads: Uploads, client: Client, id: Id, now: int, allowComplete: bool)
    ensures var r := Required(uploads, client, id, now, allowComplete);
            if id !in uploads || uploads[id].owner != client then
              r == Err(NotFound) && Looked(uploads, client, id, now) == uploads
            else
              var u := uploads[id];
              && (r == Err(UploadExpired) <==> u.status == Open && u.expiresAt <= now)
              && (r == Err(NotFound) <==>
                  u.status == Cancelled || u.status == Expired || (u.status == Complete && !allowComplete))
              && (r == Ok(u) <==> (u.status == Open && now < u.expiresAt) || (u.status == Complete && allowComplete))
              && Looked(uploads, client, id, now) ==
                 if u.status == Open && u.expiresAt <= now then uploads[id := u.(status := Expired)] else uploads
  {
  }

  /**
    How a part is answered: its number must be that of a part, its length all that is left of the object
    but at most 8 MiB, its content what its digest says; a part that is there already must be the same.
   */
  lemma PartVerdictExactly(hash: Hash, u: Upload, number: int, digest: Digest, body: Bytes)
    requires number >= 1
    ensures var verdict, start := PartVerdict(hash, u, number, digest, body), (number - 1) * 8388608;
            var expected := if u.bytes - start < 8388608 then u.bytes - start else 8388608;
            && (verdict == Err(Invalid("partNumber")) <==> u.bytes <= start)
            && (verdict == Err(Invalid("body")) <==> start < u.bytes && |body| > expected)
            && (verdict == Err(Unverified("length")) <==> start < u.bytes && |body| < expected)
            && (verdict == Err(Unverified("part-digest")) <==>
                start < u.bytes && |body| == expected && hash(body) != digest)
            && (start < u.bytes && |body| == expected && hash(body) == digest ==>
                  && (number !in u.parts ==> verdict == Ok(false))
                  && (number in u.parts && u.parts[number].digest == digest && u.parts[number].bytes == expected ==>
                        verdict == Ok(true))
                  && (number in u.parts && (u.parts[number].digest != digest || u.parts[number].bytes != expected) ==>
                        verdict == Err(PartConflict)))
  {
    PartLengthExactly(u.bytes, number);
  }

  lemma PartLengthExactly(bytes: nat, number: int)
    requires number >= 1
    ensures number > PartCount(bytes) <==> bytes <= (number - 1) * 8388608
    ensures number <= PartCount(bytes) ==>
              PartBytes(bytes, number) ==
              if bytes - (number - 1) * 8388608 < 8388608 then bytes - (number - 1) * 8388608 else 8388608
  {
  }

  lemma ActiveExactly(uploads: Uploads, client: Client, now: int)
    ensures ActiveUploads(uploads, client, now) ==
            set id | id in uploads && uploads[id].owner == client && uploads[id].status.Open?
              && uploads[id].expiresAt > now
  {
  }

  lemma LookingIsHarmless(uploads: Uploads, objects: Objects, storage: Storage, hash: Hash, client: Client, id: Id,
                          now: int, latest: int)
    requires UploadsRight(uploads, storage, hash) && PartsApart(uploads) && Limited(uploads, latest) && latest <= now
    ensures var uploads' := Looked(uploads, client, id, now);
            UploadsRight(uploads', storage, hash) && PartsApart(uploads') && Limited(uploads', now)
              && Advances(uploads, objects, uploads', objects)
  {
    hide Limited;
    var uploads' := Looked(uploads, client, id, now);
    FewerActive(uploads, latest, uploads', now);
    hide PartStored;
    if uploads' != uploads {
      OtherPartsApart(uploads, id, uploads'[id]);
    }
  }

  /** The numbers of the parts of an upload, in increasing order. */
  method CompletedParts(u: Upload) returns (numbers: seq<int>)
    requires forall n :: n in u.parts ==> 1 <= n <= PartCount(u.bytes)
    ensures forall n :: n in numbers <==> n in u.parts
    ensures forall i, j :: 0 <= i < j < |numbers| ==> numbers[i] < numbers[j]
  {
    numbers := [];
    for n := 1 to PartCount(u.bytes) + 1
      invariant forall m :: m in numbers <==> m in u.parts && m < n
      invariant forall i, j :: 0 <= i < j < |numbers| ==> numbers[i] < numbers[j]
    {
      if n in u.parts {
        assert forall i :: 0 <= i < |numbers| ==> numbers[i] in numbers;
        numbers := numbers + [n];
      }
    }
  }

  /** How a part must be answered, from what was declared for it and what arrived. */
  function PartVerdict(hash: Hash, u: Upload, number: int, digest: Digest, body: Bytes): Result<bool, Error> {
    var expected := PartBytes(u.bytes, number);
    if number > PartCount(u.bytes) then Err(Invalid("partNumber"))
    else if |body| > expected then Err(Invalid("body"))
    else if |body| < expected then Err(Unverified("length"))
    else if hash(body) != digest then Err(Unverified("part-digest"))
    else if number !in u.parts then Ok(false)
    else if u.parts[number].digest == digest && u.parts[number].bytes == |body| then Ok(true)
    else Err(PartConflict)
  }

  lemma TimePasses(uploads: Uploads, objects: Objects, latest: int, now: int)
    requires Limited(uploads, latest) && latest <= now
    ensures Limited(uploads, now) && Advances(uploads, objects, uploads, objects)
  {
    hide Limited;
    FewerActive(uploads, latest, uploads, now);
  }

  /** A verified part joins an open upload. */
  lemma PartArrives(uploads: Uploads, objects: Objects, storage: Storage, hash: Hash, id: Id, n: int, p: Part,
                    body: Bytes, now: int)
    requires UploadsRight(uploads, storage, hash) && PartsApart(uploads) && Limited(uploads, now)
             && ObjectsRight(objects, storage, hash)
    requires id in uploads && uploads[id].status.Open? && n !in uploads[id].parts
             && FreshPart(uploads, storage, p.storageKey)
    requires 1 <= n <= PartCount(uploads[id].bytes) && p.bytes == |body| == PartBytes(uploads[id].bytes, n)
             && hash(body) == p.digest
    ensures var uploads' := uploads[id := uploads[id].(parts := uploads[id].parts[n := p])];
            var storage' := storage[p.storageKey := body];
            && UploadsRight(uploads', storage', hash) && PartsApart(uploads') && Limited(uploads', now)
            && ObjectsRight(objects, storage', hash) && Advances(uploads, objects, uploads', objects)
  {
    var u' := uploads[id].(parts := uploads[id].parts[n := p]);
    var uploads', storage' := uploads[id := u'], storage[p.storageKey := body];
    PartAddedApart(uploads, storage, id, n, p);
    hide PartsApart, Limited;
    FewerActive(uploads, now, uploads', now);
    assert StoragesAgree(storage, storage', {});
    UploadsStayRight(uploads, storage, storage', {}, hash);
    ObjectsStayRight(objects, storage, storage', {}, hash);
    hide StoragesAgree, ObjectsRight;
    assert UploadRight(u', storage', hash) by {
      assert UploadRight(uploads[id], storage', hash);
    }
    hide UploadRight;
  }

  // ---------------------------------------------------------------- ending

  lemma UploadEnds(uploads: Uploads, objects: Objects, storage: Storage, hash: Hash, id: Id, status: Status, now: int)
    requires UploadsRight(uploads, storage, hash) && PartsApart(uploads) && Limited(uploads, now)
    requires id in uploads && uploads[id].status.Open? && (status.Cancelled? || status.Expired?)
    ensures var uploads' := uploads[id := uploads[id].(status := status)];
            UploadsRight(uploads', storage, hash) && PartsApart(uploads') && Limited(uploads', now)
              && Advances(uploads, objects, uploads', objects)
  {
    var uploads' := uploads[id := uploads[id].(status := status)];
    OtherPartsApart(uploads, id, uploads'[id]);
    hide Limited, PartsApart, PartStored;
    FewerActive(uploads, now, uploads', now);
  }

  /** The parts of an upload that has ended may go. */
  lemma PartsGo(before: Uploads, uploads: Uploads, objects: Objects, storage: Storage, storage': Storage, hash: Hash,
                id: Id)
    requires id in before && before[id].status.Open? && PartsApart(before) && UploadRight(before[id], storage, hash)
    requires id in uploads && !uploads[id].status.Open? && uploads == before[id := uploads[id]]
    requires UploadsRight(uploads, storage, hash) && ObjectsRight(objects, storage, hash)
             && StoragesAgree(storage, storage', PartKeys(before[id]))
    ensures UploadsRight(uploads, storage', hash) && ObjectsRight(objects, storage', hash)
  {
    OwnPartsApart(before, id);
    UploadsStayRight(uploads, storage, storage', PartKeys(before[id]), hash);
    ObjectsStayRight(objects, storage, storage', PartKeys(before[id]), hash);
  }

  // ---------------------------------------------------------------- references

  predicate Exists(objects: Objects, space: Space, id: Id) {
    id in objects && objects[id].space == space
  }

  function ReferenceRefusal(objects: Objects, space: Space, referenceId: string, ids: seq<Id>): Option<Error> {
    if !IsReferenceId(referenceId) then Some(Invalid("referenceId"))
    else if |ids| > 100 || !AllDistinct(ids) then Some(Invalid("objectIds"))
    else if exists i :: 0 <= i < |ids| && !Exists(objects, space, ids[i]) then Some(NotFound)
    else None
  }

  function Replaced(references: References, holder: Holder, ids: seq<Id>, deadline: Option<int>): References {
    references[holder := seq(|ids|, i requires 0 <= i < |ids| => Reference(ids[i], deadline))]
  }

  function Touched(objects: Objects, ids: seq<Id>, deadline: Option<int>): Objects {
    map id | id in objects ::
      if id in ids then objects[id].(unreferencedAt := None, retainUntil := LaterOf(objects[id].retainUntil, deadline))
         else objects[id]
  }

  function Released(objects: Objects, references: References, space: Space, previous: seq<Reference>, ids: seq<Id>,
                    now: int): Objects {
    map id | id in objects ::
      if Names(previous, id) && id !in ids && objects[id].space == space && !Held(references, space, id)
      then objects[id].(unreferencedAt := Some(now)) else objects[id]
  }

  lemma NamesNext(references: seq<Reference>, n: nat)
    requires n < |references|
    ensures forall id :: Names(references[..n + 1], id) <==> Names(references[..n], id) || id == references[n].objectId
  {
    var more, some := references[..n + 1], references[..n];
    forall id ensures Names(more, id) <==> Names(some, id) || id == references[n].objectId {
      if Names(some, id) {
        var i :| 0 <= i < n && some[i].objectId == id;
        assert more[i].objectId == id;
      }
      assert more[n].objectId == references[n].objectId;
      if Names(more, id) {
        var i :| 0 <= i <= n && more[i].objectId == id;
        assert i < n ==> some[i].objectId == id;
      }
    }
  }

  lemma ReleasedNext(objects: Objects, references: References, space: Space, previous: seq<Reference>, ids: seq<Id>,
                     now: int, i: nat)
    requires i < |previous|
    ensures var prior := previous[i].objectId;
            var before := Released(objects, references, space, previous[..i], ids, now);
            Released(objects, references, space, previous[..i + 1], ids, now) ==
            if prior !in ids && prior in before && before[prior].space == space && !Held(references, space, prior)
            then before[prior := before[prior].(unreferencedAt := Some(now))] else before
  {
    hide Held, Names;
    NamesNext(previous, i);
  }

  /** What replacing a reference set does to each object. */
  ghost predicate Rereferenced(references: References, references': References, objects: Objects, objects': Objects,
                               holder: Holder, ids: seq<Id>, deadline: Option<int>, now: int) {
    && objects'.Keys == objects.Keys
    && forall id :: id in objects ==>
                      objects'[id] ==
                      if id in ids then
                         objects[id].(unreferencedAt := None, retainUntil := LaterOf(objects[id].retainUntil, deadline))
                      else if Held(references, objects[id].space, id) && !Held(references', objects[id].space, id)
                      then objects[id].(unreferencedAt := Some(now)) else objects[id]
  }

  lemma NamesReplaced(ids: seq<Id>, deadline: Option<int>, id: Id)
    ensures Names(seq(|ids|, i requires 0 <= i < |ids| => Reference(ids[i], deadline)), id) <==> id in ids
  {
    var rows := seq(|ids|, i requires 0 <= i < |ids| => Reference(ids[i], deadline));
    if id in ids {
      var i :| 0 <= i < |ids| && ids[i] == id;
      assert rows[i].objectId == id;
    }
    if Names(rows, id) {
      var i :| 0 <= i < |rows| && rows[i].objectId == id;
      assert ids[i] == id;
    }
  }

  /** Who is held before a replacement, and after it: by the set that is replaced, and by the others. */
  lemma HeldReplaced(references: References, holder: Holder, ids: seq<Id>, deadline: Option<int>, space: Space, id: Id)
    ensures Held(Replaced(references, holder, ids, deadline), space, id) <==>
            (space == holder.space && id in ids) || Held(references - {holder}, space, id)
    ensures Held(references, space, id) <==>
            || (space == holder.space && holder in references && Names(references[holder], id))
            || Held(references - {holder}, space, id)
  {
    NamesReplaced(ids, deadline, id);
    HeldBySome(Replaced(references, holder, ids, deadline), holder, space, id);
    HeldBySome(references, holder, space, id);
    assert Replaced(references, holder, ids, deadline) - {holder} == references - {holder};
  }

  lemma HeldBySome(references: References, holder: Holder, space: Space, id: Id)
    ensures Held(references, space, id) <==>
            || (space == holder.space && holder in references && Names(references[holder], id))
            || Held(references - {holder}, space, id)
  {
    hide Names;
    var others := references - {holder};
    if Held(references, space, id) {
      var h :| h in references && h.space == space && Names(references[h], id);
      assert h != holder ==> h in others && others[h] == references[h];
    }
    if Held(others, space, id) {
      var h :| h in others && h.space == space && Names(others[h], id);
      assert h in references && references[h] == others[h];
    }
  }

  lemma ReferencesSettle(references: References, objects: Objects, objects': Objects, holder: Holder, ids: seq<Id>,
                         deadline: Option<int>, now: int)
    requires ReferencesRight(references, objects) && UnreferencedRight(references, objects)
    requires forall i :: 0 <= i < |ids| ==> Exists(objects, holder.space, ids[i])
    requires objects' ==
             Released(Touched(objects, ids, deadline), Replaced(references, holder, ids, deadline), holder.space,
                      if holder in references then references[holder] else [], ids, now)
    ensures var references' := Replaced(references, holder, ids, deadline);
            && Rereferenced(references, references', objects, objects', holder, ids, deadline, now)
            && ReferencesRight(references', objects') && UnreferencedRight(references', objects')
  {
    var references' := Replaced(references, holder, ids, deadline);
    hide Held, Names;
    assert forall id :: id in ids ==> id in objects && objects[id].space == holder.space;
    forall id | id in objects
      ensures objects'[id] ==
              if id in ids then
                 objects[id].(unreferencedAt := None, retainUntil := LaterOf(objects[id].retainUntil, deadline))
              else if Held(references, objects[id].space, id) && !Held(references', objects[id].space, id)
              then objects[id].(unreferencedAt := Some(now)) else objects[id]
      ensures objects'[id].unreferencedAt.None? <==> Held(references', objects[id].space, id)
    {
      HeldReplaced(references, holder, ids, deadline, objects[id].space, id);
      NamedIsHeld(references, holder, id);
    }
    forall h, id | h in references' && Names(references'[h], id)
      ensures id in objects' && objects'[id].space == h.space {
      NamesReplaced(ids, deadline, id);
      assert h != holder ==> h in references && references'[h] == references[h];
    }
  }

  /** Replacing references changes nothing but the bookkeeping of objects. */
  lemma RereferencingAdvances(uploads: Uploads, references: References, references': References, objects: Objects,
                              objects': Objects, storage: Storage, hash: Hash, holder: Holder, ids: seq<Id>,
                                deadline: Option<int>, now: int)
    requires Rereferenced(references, references', objects, objects', holder, ids, deadline, now)
    requires ObjectsRight(objects, storage, hash) && ContentsApart(objects)
    ensures Advances(uploads, objects, uploads, objects') && ObjectsRight(objects', storage, hash)
            && ContentsApart(objects')
  {
    hide Held;
  }

  method Rows(objects: Objects, ids: seq<Id>) returns (rows: seq<StoredObject>)
    requires forall i :: 0 <= i < |ids| ==> ids[i] in objects
    ensures |rows| == |ids| && forall i :: 0 <= i < |ids| ==> rows[i] == objects[ids[i]]
  {
    rows := [];
    for i := 0 to |ids|
      invariant |rows| == i && forall j :: 0 <= j < i ==> rows[j] == objects[ids[j]]
    {
      rows := rows + [objects[ids[i]]];
    }
  }

  /** Held means named by some row of some reference set of the space. */
  lemma HeldExactly(references: References, space: Space, id: Id)
    ensures Held(references, space, id) <==>
            exists holder, i :: holder in references && holder.space == space && 0 <= i < |references[holder]|
                                && references[holder][i].objectId == id
  {
    if exists holder, i :: holder in references && holder.space == space && 0 <= i < |references[holder]|
                           && references[holder][i].objectId == id
    {
      var holder, i :| holder in references && holder.space == space && 0 <= i < |references[holder]|
                       && references[holder][i].objectId == id;
      assert Names(references[holder], id);
    }
  }

  /** Which replacements are refused: by the name of the set, by the list of objects, by an object that is not there. */
  lemma ReferenceRefusalExactly(objects: Objects, space: Space, referenceId: string, ids: seq<Id>)
    ensures var refusal := ReferenceRefusal(objects, space, referenceId, ids);
            var named := 1 <= |referenceId| <= 160
                         && forall c :: c in referenceId ==>
                              'A' <= c <= 'Z' || 'a' <= c <= 'z' || '0' <= c <= '9' || c == ':' || c == '_' || c == '-';
            var listed := |ids| <= 100 && forall i, j :: 0 <= i < j < |ids| ==> ids[i] != ids[j];
            var there := forall id :: id in ids ==> id in objects && objects[id].space == space;
            && (refusal == Some(Invalid("referenceId")) <==> !named)
            && (refusal == Some(Invalid("objectIds")) <==> named && !listed)
            && (refusal == Some(NotFound) <==> named && listed && !there)
            && (refusal.None? <==> named && listed && there)
  {
    forall k | 0 <= k < |referenceId| ensures referenceId[k] in referenceId {}
    forall k | 0 <= k < |ids| ensures ids[k] in ids {}
  }

  /** A replacement writes one row for each object, in order, with the deadline, and leaves other sets alone. */
  lemma ReplacedExactly(references: References, holder: Holder, ids: seq<Id>, deadline: Option<int>)
    ensures var references' := Replaced(references, holder, ids, deadline);
            && references'.Keys == references.Keys + {holder}
            && (forall h :: h in references && h != holder ==> references'[h] == references[h])
            && |references'[holder]| == |ids|
            && (forall i :: 0 <= i < |ids| ==> references'[holder][i] == Reference(ids[i], deadline))
  {
  }

  /** What a replacement does to each object, in terms of its row and of who is named before and after. */
  lemma RereferencedExactly(references: References, references': References, objects: Objects, objects': Objects,
                            holder: Holder, ids: seq<Id>, deadline: Option<int>, now: int)
    requires Rereferenced(references, references', objects, objects', holder, ids, deadline, now)
    ensures objects'.Keys == objects.Keys
    ensures forall id :: id in ids && id in objects ==>
              && objects'[id] == objects[id].(unreferencedAt := None, retainUntil := objects'[id].retainUntil)
              && (deadline.None? ==> objects'[id].retainUntil == objects[id].retainUntil)
              && (deadline.Some? && objects[id].retainUntil.None? ==> objects'[id].retainUntil == deadline)
              && (deadline.Some? && objects[id].retainUntil.Some? ==>
                    objects'[id].retainUntil ==
                    if objects[id].retainUntil.value < deadline.value then deadline else objects[id].retainUntil)
    ensures forall id :: id in objects && id !in ids ==>
              var space := objects[id].space;
              var before :=
                exists h, i ::
                    h in references && h.space == space && 0 <= i < |references[h]| && references[h][i].objectId == id;
              var after :=
                exists h, i ::
                    h in references' && h.space == space && 0 <= i < |references'[h]|
                      && references'[h][i].objectId == id;
              objects'[id] == if before && !after then objects[id].(unreferencedAt := Some(now)) else objects[id]
  {
    forall id | id in objects
      ensures Held(references, objects[id].space, id) <==>
              exists h, i ::
                  h in references && h.space == objects[id].space && 0 <= i < |references[h]|
                    && references[h][i].objectId == id
      ensures Held(references', objects[id].space, id) <==>
              exists h, i ::
                  h in references' && h.space == objects[id].space && 0 <= i < |references'[h]|
                    && references'[h][i].objectId == id
    {
      HeldExactly(references, objects[id].space, id);
      HeldExactly(references', objects[id].space, id);
    }
    hide Held;
  }

  /** What dropping a reference set does to each object, given the references that are left. */
  lemma DroppedExactly(objects: Objects, references: References, space: Space, now: int)
    ensures Dropped(objects, references, space, now).Keys == objects.Keys
    ensures forall id :: id in objects ==>
              var held :=
                exists h, i ::
                    h in references && h.space == space && 0 <= i < |references[h]| && references[h][i].objectId == id;
              Dropped(objects, references, space, now)[id] ==
              if objects[id].space == space && !held && objects[id].unreferencedAt == None
              then objects[id].(unreferencedAt := Some(now)) else objects[id]
  {
    forall id | id in objects
      ensures Held(references, space, id) <==>
              exists h, i ::
                  h in references && h.space == space && 0 <= i < |references[h]| && references[h][i].objectId == id
    {
      HeldExactly(references, space, id);
    }
    hide Held;
  }

  lemma NamedIsHeld(references: References, holder: Holder, id: Id)
    ensures holder in references && Names(references[holder], id) ==> Held(references, holder.space, id)
    ensures !Names([], id)
  {
  }

  function Dropped(objects: Objects, references: References, space: Space, now: int): Objects {
    map id | id in objects ::
      if objects[id].space == space && !Held(references, space, id) && objects[id].unreferencedAt.None?
      then objects[id].(unreferencedAt := Some(now)) else objects[id]
  }

  lemma DroppingSettles(references: References, objects: Objects, uploads: Uploads, storage: Storage, hash: Hash,
                        holder: Holder, now: int)
    requires ReferencesRight(references, objects) && UnreferencedRight(references, objects)
    requires ObjectsRight(objects, storage, hash) && ContentsApart(objects)
    ensures var references' := references - {holder};
            var objects' := Dropped(objects, references', holder.space, now);
            && ReferencesRight(references', objects') && UnreferencedRight(references', objects')
            && ObjectsRight(objects', storage, hash) && ContentsApart(objects')
               && Advances(uploads, objects, uploads, objects')
  {
    hide Names, Held;
    var references' := references - {holder};
    DroppingAdvances(references', objects, uploads, storage, hash, holder.space, now);
    hide ObjectsRight, ContentsApart, Advances;
    forall id | id in objects
      ensures Held(references', objects[id].space, id) ==> Held(references, objects[id].space, id)
      ensures Held(references, objects[id].space, id) && objects[id].space != holder.space ==>
                Held(references', objects[id].space, id)
    {
      HeldDropped(references, holder, objects[id].space, id);
    }
  }

  lemma DroppingAdvances(references: References, objects: Objects, uploads: Uploads, storage: Storage, hash: Hash,
                         space: Space, now: int)
    requires ObjectsRight(objects, storage, hash) && ContentsApart(objects)
    ensures var objects' := Dropped(objects, references, space, now);
            ObjectsRight(objects', storage, hash) && ContentsApart(objects')
              && Advances(uploads, objects, uploads, objects')
  {
    OnlyDated(objects, Dropped(objects, references, space, now), storage, hash);
    hide Held, ObjectsRight, ContentsApart;
  }

  /** The content of an object does not depend on when it was last used. */
  lemma OnlyDated(objects: Objects, objects': Objects, storage: Storage, hash: Hash)
    requires ObjectsRight(objects, storage, hash) && ContentsApart(objects) && objects'.Keys == objects.Keys
    requires forall id :: id in objects' ==> objects'[id] == objects[id].(unreferencedAt := objects'[id].unreferencedAt)
    ensures ObjectsRight(objects', storage, hash) && ContentsApart(objects')
  {
    forall id | id in objects' ensures ObjectRight(objects'[id], storage, hash) {
      assert ObjectRight(objects[id], storage, hash);
    }
  }

  lemma HeldDropped(references: References, holder: Holder, space: Space, id: Id)
    ensures Held(references - {holder}, space, id) ==> Held(references, space, id)
    ensures Held(references, space, id) && space != holder.space ==> Held(references - {holder}, space, id)
  {
    hide Names;
    var references' := references - {holder};
    if Held(references', space, id) {
      var h :| h in references' && h.space == space && Names(references'[h], id);
      assert h in references;
    }
    if Held(references, space, id) && space != holder.space {
      var h :| h in references && h.space == space && Names(references[h], id);
      assert h in references';
    }
  }

  // ---------------------------------------------------------------- collecting

  lemma ExpiredExactly(uploads: Uploads, now: int)
    ensures OutOfTime(uploads, now) == set id | id in uploads && uploads[id].status.Open?
            && uploads[id].expiresAt <= now
    ensures ExpireAll(uploads, now).Keys == uploads.Keys
    ensures forall id :: id in uploads ==>
              ExpireAll(uploads, now)[id] ==
              if uploads[id].status.Open? && uploads[id].expiresAt <= now then uploads[id].(status := Expired)
                 else uploads[id]
  {
  }

  function OutOfTime(uploads: Uploads, now: int): set<Id> {
    set id | id in uploads && uploads[id].status.Open? && uploads[id].expiresAt <= now
  }

  function ExpireAll(uploads: Uploads, now: int): Uploads {
    map id | id in uploads :: if id in OutOfTime(uploads, now) then uploads[id].(status := Expired) else uploads[id]
  }

  /** Nothing holds the object, its grace is over, and neither it nor a backup is retained. */
  predicate Collectable(o: StoredObject, references: References, id: Id, grace: nat, now: int,
                        backupRetainUntil: Option<int>) {
    && !Held(references, o.space, id)
    && o.unreferencedAt.Some? && o.unreferencedAt.value + grace <= now
    && !(o.retainUntil.Some? && o.retainUntil.value > now)
       && !(backupRetainUntil.Some? && backupRetainUntil.value > now)
  }

  /** When an object may go, in terms of its row, of the references and of the times. */
  lemma CollectableExactly(o: StoredObject, references: References, id: Id, grace: nat, now: int,
                           backupRetainUntil: Option<int>)
    ensures Collectable(o, references, id, grace, now, backupRetainUntil) <==>
            && o.unreferencedAt.Some? && o.unreferencedAt.value + grace <= now
            && (o.retainUntil.None? || o.retainUntil.value <= now)
            && (backupRetainUntil.None? || backupRetainUntil.value <= now)
            && (forall holder, i ::
                  holder in references && holder.space == o.space && 0 <= i < |references[holder]| ==>
                  references[holder][i].objectId != id)
  {
    if exists holder, i ::
         holder in references && holder.space == o.space && 0 <= i < |references[holder]|
         && references[holder][i].objectId == id
    {
      var holder, i :| holder in references && holder.space == o.space && 0 <= i < |references[holder]|
                       && references[holder][i].objectId == id;
      assert Names(references[holder], id) && Held(references, o.space, id);
    }
  }

  lemma CollectedExactly(objects: Objects, objects': Objects, references: References, storage: Storage, grace: nat,
                         now: int, backupRetainUntil: Option<int>)
    requires objects'.Keys <= objects.Keys && forall id :: id in objects' ==> objects'[id] == objects[id]
    ensures (forall id :: id in objects.Keys - objects'.Keys ==>
               Collectable(objects[id], references, id, grace, now, backupRetainUntil)
                 && objects[id].storageKey !in storage)
            ==> forall id :: id in objects.Keys - objects'.Keys ==>
                  var o := objects[id];
                  && o.unreferencedAt.Some? && o.unreferencedAt.value + grace <= now
                  && (o.retainUntil.None? || o.retainUntil.value <= now)
                  && (backupRetainUntil.None? || backupRetainUntil.value <= now)
                  && (forall holder, i ::
                        holder in references && holder.space == o.space && 0 <= i < |references[holder]| ==>
                        references[holder][i].objectId != id)
                  && o.storageKey !in storage
    ensures (forall id :: id in objects' ==> !Collectable(objects'[id], references, id, grace, now, backupRetainUntil))
            ==> forall id :: id in objects' ==>
                  var o := objects'[id];
                  || o.unreferencedAt.None? || now < o.unreferencedAt.value + grace
                  || (o.retainUntil.Some? && now < o.retainUntil.value)
                  || (backupRetainUntil.Some? && now < backupRetainUntil.value)
                  || (exists holder, i ::
                        holder in references && holder.space == o.space && 0 <= i < |references[holder]|
                        && references[holder][i].objectId == id)
  {
    forall id | id in objects
      ensures Collectable(objects[id], references, id, grace, now, backupRetainUntil) <==>
              var o := objects[id];
              && o.unreferencedAt.Some? && o.unreferencedAt.value + grace <= now
              && (o.retainUntil.None? || o.retainUntil.value <= now)
              && (backupRetainUntil.None? || backupRetainUntil.value <= now)
              && (forall holder, i ::
                    holder in references && holder.space == o.space && 0 <= i < |references[holder]| ==>
                    references[holder][i].objectId != id)
    {
      CollectableExactly(objects[id], references, id, grace, now, backupRetainUntil);
    }
    hide Collectable;
  }

  /** Removing an unreferenced object and its content takes nothing from the others. */
  lemma CollectingSettles(uploads: Uploads, objects: Objects, references: References, storage: Storage, hash: Hash,
                          id: Id)
    requires UploadsRight(uploads, storage, hash) && ObjectsRight(objects, storage, hash) && ContentsApart(objects)
    requires ReferencesRight(references, objects) && UnreferencedRight(references, objects)
    requires id in objects && !Held(references, objects[id].space, id)
    ensures var storage', objects' := storage - {objects[id].storageKey}, objects - {id};
            && UploadsRight(uploads, storage', hash) && ObjectsRight(objects', storage', hash)
               && ContentsApart(objects')
            && ReferencesRight(references, objects') && UnreferencedRight(references, objects')
  {
    var key := objects[id].storageKey;
    var storage', objects' := storage - {key}, objects - {id};
    assert StoragesAgree(storage, storage', {key});
    forall u | u in uploads && uploads[u].status.Open? ensures PartKeys(uploads[u]) !! {key} {
      assert UploadRight(uploads[u], storage, hash);
    }
    UploadsStayRight(uploads, storage, storage', {key}, hash);
    assert ObjectsRight(objects', storage, hash);
    ObjectsStayRight(objects', storage, storage', {key}, hash);
    hide Names, UploadsRight, ObjectRight;
    forall holder, k | holder in references && Names(references[holder], k)
      ensures k in objects' && objects'[k].space == holder.space {
      assert k == id ==> Held(references, holder.space, id);
    }
  }

  lemma CollectingAdvances(uploads: Uploads, uploads': Uploads, objects: Objects, objects': Objects)
    requires Advances(uploads, objects, uploads', objects)
             && forall id :: id in objects' ==> id in objects && objects'[id] == objects[id]
    ensures Advances(uploads, objects, uploads', objects')
  {
    hide UploadAdvances;
  }

  // ---------------------------------------------------------------- completing

  function ObjectOf(u: Upload, key: StorageKey, now: int): StoredObject {
    StoredObject(u.owner.space, u.digest, u.bytes, u.purpose, key, now, Some(now), None)
  }

  /** The answer to completing again: the object, unless it has been collected since. */
  function Committed(objects: Objects, u: Upload): Result<StoredObject, Error> {
    if u.objectId.Some? && u.objectId.value in objects && objects[u.objectId.value].space == u.owner.space
    then Ok(objects[u.objectId.value]) else Err(ObjectGone)
  }

  function CompletionVerdict(hash: Hash, u: Upload, content: Bytes, key: StorageKey,
                             now: int): Result<StoredObject, Error> {
    if !(PNG_SIGNATURE <= content) then Err(Unverified("png-signature"))
    else if hash(content) != u.digest then Err(Unverified("digest"))
    else Ok(ObjectOf(u, key, now))
  }

  /**
    What a completion answers for a content: the eight bytes of the signature are looked at first, then
    the digest; the object is of the space of the upload, unreferenced from now on, and not retained.
   */
  lemma CompletionExactly(hash: Hash, u: Upload, content: Bytes, key: StorageKey, now: int)
    ensures var verdict := CompletionVerdict(hash, u, content, key, now);
            var png := |content| >= 8 && content[..8] == [0x89, 0x50, 0x4e, 0x47, 0x0d, 0x0a, 0x1a, 0x0a];
            && (verdict == Err(Unverified("png-signature")) <==> !png)
            && (verdict == Err(Unverified("digest")) <==> png && hash(content) != u.digest)
            && (png && hash(content) == u.digest ==>
                  verdict ==
                  Ok(StoredObject(u.owner.space, u.digest, u.bytes, u.purpose, key, now, Some(now), None)))
  {
  }

  /** Completing again answers with the object that was committed, as long as the space has it. */
  lemma CommittedExactly(objects: Objects, u: Upload, o: StoredObject)
    ensures Committed(objects, u) == Ok(o) <==>
            && (exists id :: id in objects && u.objectId == Some(id) && objects[id] == o)
            && o.space.accountId == u.owner.space.accountId && o.space.spaceId == u.owner.space.spaceId
    ensures Committed(objects, u).Err? ==> Committed(objects, u) == Err(ObjectGone)
  {
  }

  /** The content an upload with all its parts stands for. */
  ghost function WholeContent(u: Upload, storage: Storage, hash: Hash): Bytes {
    if UploadRight(u, storage, hash) && u.status.Open? && AllParts(u) then Assembled(u, storage, PartCount(u.bytes))
       else []
  }

  /** It is as long as declared, and every part lies where its number puts it. */
  lemma WholeContentExactly(u: Upload, storage: Storage, hash: Hash)
    requires UploadRight(u, storage, hash) && u.status.Open? && AllParts(u)
    ensures |WholeContent(u, storage, hash)| == u.bytes
    ensures forall n :: n in u.parts ==>
              var content, part := WholeContent(u, storage, hash), storage[u.parts[n].storageKey];
              (n - 1) * 8388608 + |part| <= |content| && content[(n - 1) * 8388608..][..|part|] == part
  {
    AssembledIsWhole(u, storage, hash);
    forall n | n in u.parts
      ensures var content, part := WholeContent(u, storage, hash), storage[u.parts[n].storageKey];
              (n - 1) * 8388608 + |part| <= |content| && content[(n - 1) * 8388608..][..|part|] == part
    {
      AssembledAt(u, storage, hash, PartCount(u.bytes), n);
    }
  }

  lemma OpeningIsPrefix(content: Bytes)
    ensures Opening(content) == PNG_SIGNATURE <==> PNG_SIGNATURE <= content
  {
  }

  lemma {:induction false} Interval(count: nat) returns (numbers: set<int>)
    ensures |numbers| == count && forall n :: n in numbers <==> 1 <= n <= count
  {
    if count == 0 {
      numbers := {};
    } else {
      var rest := Interval(count - 1);
      numbers := rest + {count};
    }
  }

  /** Counting the parts and looking for each is the same as looking for each. */
  method EveryPart(u: Upload, storage: Storage, ghost hash: Hash) returns (complete: bool)
    requires UploadRight(u, storage, hash)
    ensures complete <==> AllParts(u)
  {
    var expected := PartCount(u.bytes);
    ghost var numbers := Interval(expected);
    if AllParts(u) {
      forall n ensures n in u.parts.Keys <==> n in numbers {}
      assert u.parts.Keys == numbers;
    }
    complete := |u.parts| == expected && AllParts(u);
  }

  method OpenParts(u: Upload, storage: Storage, ghost hash: Hash, streams: Bytes -> seq<Bytes>)
      returns (parts: seq<seq<Bytes>>)
    requires UploadRight(u, storage, hash) && u.status.Open? && AllParts(u)
    requires forall body :: Concat(streams(body)) == body
    ensures ConcatAll(parts) == WholeContent(u, storage, hash)
  {
    parts := [];
    for i := 0 to PartCount(u.bytes)
      invariant forall n :: 1 <= n <= i ==> n in u.parts && u.parts[n].storageKey in storage
      invariant ConcatAll(parts) == Assembled(u, storage, i)
    {
      var stream := streams(storage[u.parts[i + 1].storageKey]);
      assert (parts + [stream])[..|parts|] == parts;
      parts := parts + [stream];
    }
  }

  /** A content under a fresh key, there or gone again, disturbs nothing. */
  lemma StoredContent(uploads: Uploads, objects: Objects, storage: Storage, hash: Hash, key: StorageKey, body: Bytes)
    requires UploadsRight(uploads, storage, hash) && ObjectsRight(objects, storage, hash) && key !in storage
    ensures UploadsRight(uploads, storage[key := body], hash) && ObjectsRight(objects, storage[key := body], hash)
    ensures StoragesAgree(storage, storage[key := body], {}) && StoragesAgree(storage, storage, {})
  {
    UploadsStayRight(uploads, storage, storage[key := body], {}, hash);
    ObjectsStayRight(objects, storage, storage[key := body], {}, hash);
  }

  /** The row of a verified content joins the objects, and its upload is complete. */
  lemma ObjectCommits(uploads: Uploads, objects: Objects, references: References, storage: Storage, hash: Hash, id: Id,
                      objectId: Id, o: StoredObject, content: Bytes, now: int)
    requires UploadsRight(uploads, storage, hash) && PartsApart(uploads) && Limited(uploads, now)
    requires ObjectsRight(objects, storage, hash) && ContentsApart(objects)
    requires ReferencesRight(references, objects) && UnreferencedRight(references, objects)
    requires id in uploads && uploads[id].status.Open? && objectId !in objects
             && FreshContent(objects, storage, o.storageKey)
    requires |content| == o.bytes && hash(content) == o.digest && PNG_SIGNATURE <= content && o.unreferencedAt.Some?
    ensures var uploads' := uploads[id := uploads[id].(status := Complete, objectId := Some(objectId))];
            var objects', storage' := objects[objectId := o], storage[o.storageKey := content];
            && UploadsRight(uploads', storage', hash) && PartsApart(uploads') && Limited(uploads', now)
            && ObjectsRight(objects', storage', hash) && ContentsApart(objects')
            && ReferencesRight(references, objects') && UnreferencedRight(references, objects')
            && Advances(uploads, objects, uploads', objects')
  {
    StoredContent(uploads, objects, storage, hash, o.storageKey, content);
    UploadCompletes(uploads, objects, storage[o.storageKey := content], hash, id, objectId, now);
    hide UploadsRight, PartsApart, Limited, StoragesAgree;
    ObjectJoins(objects, references, storage[o.storageKey := content], hash, objectId, o);
    CompletingAdvances(uploads, objects, id, objectId, o);
  }

  lemma UploadCompletes(uploads: Uploads, objects: Objects, storage: Storage, hash: Hash, id: Id, objectId: Id,
                        now: int)
    requires UploadsRight(uploads, storage, hash) && PartsApart(uploads) && Limited(uploads, now)
    requires id in uploads && uploads[id].status.Open?
    ensures var uploads' := uploads[id := uploads[id].(status := Complete, objectId := Some(objectId))];
            UploadsRight(uploads', storage, hash) && PartsApart(uploads') && Limited(uploads', now)
  {
    var u' := uploads[id].(status := Complete, objectId := Some(objectId));
    OtherPartsApart(uploads, id, u');
    hide PartsApart, PartStored, Limited;
    FewerActive(uploads, now, uploads[id := u'], now);
    assert UploadRight(uploads[id], storage, hash);
  }

  lemma ObjectJoins(objects: Objects, references: References, storage: Storage, hash: Hash, objectId: Id,
                    o: StoredObject)
    requires ObjectsRight(objects, storage, hash) && ContentsApart(objects) && ObjectRight(o, storage, hash)
    requires ReferencesRight(references, objects) && UnreferencedRight(references, objects)
    requires objectId !in objects && o.unreferencedAt.Some?
    requires forall other :: other in objects ==> objects[other].storageKey != o.storageKey
    ensures var objects' := objects[objectId := o];
            && ObjectsRight(objects', storage, hash) && ContentsApart(objects')
            && ReferencesRight(references, objects') && UnreferencedRight(references, objects')
  {
    hide ObjectRight, Names;
    assert forall holder :: holder in references ==> !Names(references[holder], objectId);
  }

  lemma CompletingAdvances(uploads: Uploads, objects: Objects, id: Id, objectId: Id, o: StoredObject)
    requires id in uploads && uploads[id].status.Open? && objectId !in objects
    ensures var uploads' := uploads[id := uploads[id].(status := Complete, objectId := Some(objectId))];
            Advances(uploads, objects, uploads', objects[objectId := o])
  {
  }

  lemma OneUploadRight(uploads: Uploads, storage: Storage, hash: Hash, id: Id)
    requires UploadsRight(uploads, storage, hash) && id in uploads
    ensures UploadRight(uploads[id], storage, hash)
  {
  }

  lemma SameStorageAgrees(storage: Storage)
    ensures StoragesAgree(storage, storage, {})
  {
  }

  /** Deleting the parts of a completed upload takes nothing from the others. */
  lemma CommitSettles(uploads: Uploads, objects: Objects, before: Storage, storage: Storage, storage': Storage,
                      hash: Hash, id: Id, objectId: Id)
    requires id in uploads && uploads[id].status.Open? && PartsApart(uploads) && UploadRight(uploads[id], before, hash)
    requires var uploads' := uploads[id := uploads[id].(status := Complete, objectId := Some(objectId))];
             UploadsRight(uploads', storage, hash) && ObjectsRight(objects, storage, hash)
    requires StoragesAgree(before, storage, {}) && StoragesAgree(storage, storage', PartKeys(uploads[id]))
    ensures var uploads' := uploads[id := uploads[id].(status := Complete, objectId := Some(objectId))];
            UploadsRight(uploads', storage', hash) && ObjectsRight(objects, storage', hash)
    ensures StoragesAgree(before, storage', PartKeys(uploads[id]))
    ensures forall key :: key in storage && key.ContentKey? ==> key in storage' && storage'[key] == storage[key]
  {
    var uploads' := uploads[id := uploads[id].(status := Complete, objectId := Some(objectId))];
    OwnPartsApart(uploads, id);
    UploadsStayRight(uploads', storage, storage', PartKeys(uploads[id]), hash);
    ObjectsStayRight(objects, storage, storage', PartKeys(uploads[id]), hash);
  }

  class ObjectService {
    const hash: Hash
    const grace: nat
    var uploads: Uploads
    var objects: Objects
    var references: References
    var storage: Storage
    ghost var latest: int
    ghost var faults: nat

    ghost predicate Valid()
      reads this
    {
      && UploadsRight(uploads, storage, hash) && PartsApart(uploads) && Limited(uploads, latest)
      && ObjectsRight(objects, storage, hash) && ContentsApart(objects)
      && ReferencesRight(references, objects) && UnreferencedRight(references, objects)
    }

    constructor (hash: Hash, grace: nat, now: int)
      ensures Valid() && uploads == map[] && objects == map[] && references == map[] && storage == map[]
              && latest == now && faults == 0
      ensures this.hash == hash && this.grace == grace
    {
      this.hash, this.grace := hash, grace;
      uploads, objects, references, storage, latest, faults := map[], map[], map[], map[], now, 0;
      new;
      assert forall client :: ActiveUploads(uploads, client, now) == {};
    }

    /** Storing either takes effect or fails without one; so does deleting. */
    method PutContent(key: StorageKey, body: Bytes) returns (ok: bool)
      modifies `storage, `faults
      ensures if ok then storage == old(storage)[key := body] && faults == old(faults)
              else storage == old(storage) && faults > old(faults)
    {
      ok := *;
      if ok {
        storage := storage[key := body];
      } else {
        faults := faults + 1;
      }
    }

    method DeleteContent(key: StorageKey) returns (ok: bool)
      modifies `storage, `faults
      ensures if ok then storage == old(storage) - {key} && faults == old(faults)
              else storage == old(storage) && faults > old(faults)
    {
      ok := *;
      if ok {
        storage := storage - {key};
      } else {
        faults := faults + 1;
      }
    }

    /** Whether the repository takes the rows of a completion; here it is only known when it fails. */
    method TakesRows() returns (ok: bool)
      modifies `faults
      ensures if ok then faults == old(faults) else faults > old(faults)
    {
      ok := *;
      if !ok {
        faults := faults + 1;
      }
    }

    /** Deletes the stored parts of an upload; a delete that fails is passed over. */
    method DeleteParts(u: Upload)
      modifies `storage, `faults
      ensures storage.Keys <= old(storage).Keys && StoragesAgree(old(storage), storage, PartKeys(u))
      ensures forall key :: key in storage ==> storage[key] == old(storage)[key]
      ensures faults >= old(faults) && (faults == old(faults) ==> storage == old(storage) - PartKeys(u))
    {
      var rest := PartKeys(u);
      while rest != {}
        invariant rest <= PartKeys(u) && storage.Keys <= old(storage).Keys && faults >= old(faults)
        invariant StoragesAgree(old(storage), storage, PartKeys(u))
        invariant forall key :: key in storage ==> storage[key] == old(storage)[key]
        invariant faults == old(faults) ==> storage.Keys == old(storage).Keys - (PartKeys(u) - rest)
        decreases |rest|
      {
        var key :| key in rest;
        var _ := DeleteContent(key);
        rest := rest - {key};
      }
      assert faults == old(faults) ==> storage == old(storage) - PartKeys(u);
    }

    method CreateUpload(client: Client, d: Declaration, id: Id, now: int) returns (r: Result<Upload, Error>)
      requires Valid() && id !in uploads && latest <= now
      modifies this
      ensures Valid() && latest == now && Advances(old(uploads), old(objects), uploads, objects)
      ensures objects == old(objects) && references == old(references) && storage == old(storage)
              && faults == old(faults)
      ensures r.Err? ==> uploads == old(uploads)
      ensures Refusal(d).Some? ==> r == Err(Refusal(d).value)
      ensures Refusal(d).None? ==>
                var active :=
                  set other | other in old(uploads) && old(uploads)[other].owner == client
                              && old(uploads)[other].status.Open? && old(uploads)[other].expiresAt > now;
                (r.Ok? <==> |active| < 4) && (r.Err? ==> r.error == TransferLimit)
      ensures r.Ok? ==>
                && r.value ==
                   Upload(client, d.digest.value, d.bytes, d.purpose, Open, now, now + UPLOAD_TTL, map[], None)
                && r.value.expiresAt == now + 24 * 60 * 60 * 1000
                && uploads == old(uploads)[id := r.value] && Active(r.value, client, now)
    {
      ActiveExactly(uploads, client, now);
      hide PartStored, Limited;
      FewerActive(uploads, latest, uploads, now);
      latest := now;
      if Refusal(d).Some? {
        return Err(Refusal(d).value);
      }
      if |ActiveUploads(uploads, client, now)| >= MAX_TRANSFERS {
        return Err(TransferLimit);
      }
      var u := Upload(client, d.digest.value, d.bytes, d.purpose, Open, now, now + UPLOAD_TTL, map[], None);
      OneMoreActive(uploads, now, id, u);
      uploads := uploads[id := u];
      r := Ok(u);
    }

    method RequireUpload(client: Client, id: Id, now: int, allowComplete: bool) returns (r: Result<Upload, Error>)
      requires Valid() && latest <= now
      modifies `uploads, `latest
      ensures Valid() && latest == now && Advances(old(uploads), old(objects), uploads, objects)
      ensures r == Required(old(uploads), client, id, now, allowComplete)
              && uploads == Looked(old(uploads), client, id, now)
    {
      LookingIsHarmless(uploads, objects, storage, hash, client, id, now, latest);
      r := Required(uploads, client, id, now, allowComplete);
      uploads := Looked(uploads, client, id, now);
      latest := now;
    }

    /** The parts of an upload in increasing order, and its state. */
    method UploadStatus(client: Client, id: Id, now: int) returns (r: Result<(Upload, seq<int>), Error>)
      requires Valid() && latest <= now
      modifies `uploads, `latest
      ensures Valid() && latest == now && Advances(old(uploads), old(objects), uploads, objects)
      ensures uploads == Looked(old(uploads), client, id, now)
      ensures r.Ok? <==> Required(old(uploads), client, id, now, true).Ok?
      ensures r.Ok? ==>
                && r.value.0 == old(uploads)[id]
                && (forall n :: n in r.value.1 <==> n in r.value.0.parts)
                && (forall i, j :: 0 <= i < j < |r.value.1| ==> r.value.1[i] < r.value.1[j])
    {
      var required := RequireUpload(client, id, now, true);
      if required.Err? {
        return Err(required.error);
      }
      var numbers := CompletedParts(required.value);
      r := Ok((required.value, numbers));
    }

    /**
      Receives one part. A part is stored only with the length and digest it must have; the same
      part again is answered without a second effect, another content under its number is refused.
     */
    method PutPart(client: Client, id: Id, number: int, digest: Option<Digest>, source: seq<Bytes>, key: StorageKey,
                   now: int) returns (r: Result<bool, Error>)
      requires Valid() && latest <= now && FreshPart(uploads, storage, key)
      modifies this
      ensures Valid() && latest == now && Advances(old(uploads), old(objects), uploads, objects)
      ensures objects == old(objects) && references == old(references) && faults >= old(faults)
      ensures number < 1 || number > MAX_PARTS || digest.None? ==> r.Err? && r.error.Invalid? && uploads == old(uploads)
      ensures 1 <= number <= MAX_PARTS && digest.Some? ==>
                var required := Required(old(uploads), client, id, now, false);
                (required.Err? ==> r == Err(required.error)) &&
                (required.Ok? ==>
                 r == PartVerdict(hash, required.value, number, digest.value, Concat(source))
                   || (r == Err(StorageUnavailable) && faults > old(faults)))
      ensures r.Err? || r.value ==>
                storage == old(storage) && (uploads == old(uploads) || uploads == Looked(old(uploads), client, id, now))
      ensures r.Ok? && !r.value ==>
                var u := old(uploads)[id];
                && number !in u.parts && storage == old(storage)[key := Concat(source)]
                && uploads ==
                   old(uploads)[id := u.(parts := u.parts[number := Part(digest.value, |Concat(source)|, key)])]
    {
      hide Limited, StoragesAgree, ObjectRight, Advances;
      TimePasses(uploads, objects, latest, now);
      if number < 1 || number > MAX_PARTS {
        latest := now;
        return Err(Invalid("partNumber"));
      }
      if digest.None? {
        latest := now;
        return Err(Invalid("content-digest"));
      }
      var required := RequireUpload(client, id, now, false);
      if required.Err? {
        return Err(required.error);
      }
      var u := required.value;
      if number > PartCount(u.bytes) {
        return Err(Invalid("partNumber"));
      }
      PartsCoverObject(u.bytes);
      var receipt := ReceivePart(source, PartBytes(u.bytes, number));
      if receipt.TooLong? {
        return Err(Invalid("body"));
      }
      if receipt.TooShort? {
        return Err(Unverified("length"));
      }
      if hash(receipt.body) != digest.value {
        return Err(Unverified("part-digest"));
      }
      if number in u.parts {
        if u.parts[number].digest != digest.value || u.parts[number].bytes != |receipt.body| {
          return Err(PartConflict);
        }
        return Ok(true);
      }
      var ok := PutContent(key, receipt.body);
      if !ok {
        return Err(StorageUnavailable);
      }
      var p := Part(digest.value, |receipt.body|, key);
      PartArrives(uploads, objects, old(storage), hash, id, number, p, receipt.body, now);
      uploads := uploads[id := u.(parts := u.parts[number := p])];
      r := Ok(false);
    }

    /**
      Copies the parts, in order, to the key of the object, and checks what went through. A content
      that is refused, or whose rows the repository does not take, is deleted again, if that works.
     */
    method AssembleContent(u: Upload, finalKey: StorageKey, streams: Bytes -> seq<Bytes>)
        returns (refusal: Option<Error>)
      requires UploadRight(u, storage, hash) && u.status.Open? && AllParts(u) && finalKey !in storage
      requires forall body :: Concat(streams(body)) == body
      modifies `storage, `faults
      ensures var content := WholeContent(u, old(storage), hash);
              && (storage == old(storage) || storage == old(storage)[finalKey := content]) && faults >= old(faults)
              && (refusal.Some? && faults == old(faults) ==> storage == old(storage))
              && (refusal.None? ==>
                  storage == old(storage)[finalKey := content] && CompletionVerdict(hash, u, content, finalKey, 0).Ok?
                    && |content| == u.bytes)
              && (refusal.Some? ==>
                  (refusal.value == StorageUnavailable && faults > old(faults))
                    || CompletionVerdict(hash, u, content, finalKey, 0) == Err(refusal.value))
    {
      var parts := OpenParts(u, storage, hash, streams);
      var out, bytes, hashed, signature := PassThrough(parts);
      AssembledIsWhole(u, storage, hash);
      OpeningIsPrefix(hashed);
      hide Assembled, UploadRight, Opening, Concat, ConcatAll;
      var ok := PutContent(finalKey, hashed);
      if !ok {
        var _ := DeleteContent(finalKey);
        assert old(storage) - {finalKey} == old(storage);
        return Some(StorageUnavailable);
      }
      if bytes != u.bytes || hash(hashed) != u.digest || signature != PNG_SIGNATURE {
        var _ := DeleteContent(finalKey);
        assert old(storage)[finalKey := hashed] - {finalKey} == old(storage);
        var reason :=
          if signature != PNG_SIGNATURE then "png-signature" else if bytes != u.bytes then "length" else "digest";
        return Some(Unverified(reason));
      }
      var taken := TakesRows();
      if !taken {
        var _ := DeleteContent(finalKey);
        assert old(storage)[finalKey := hashed] - {finalKey} == old(storage);
        return Some(StorageUnavailable);
      }
      refusal := None;
    }

    /**
      Completes an upload. What is committed is the parts in order, however storage cuts them into
      chunks, and only if it has the declared digest and starts like a PNG; any failure leaves the
      upload open with all its parts.
     */
    method CompleteUpload(client: Client, id: Id, finalKey: StorageKey, objectId: Id, streams: Bytes -> seq<Bytes>,
                          now: int) returns (r: Result<StoredObject, Error>)
      requires Valid() && latest <= now && FreshContent(objects, storage, finalKey) && objectId !in objects
      requires forall body :: Concat(streams(body)) == body
      modifies this
      ensures Valid() && latest == now && Advances(old(uploads), old(objects), uploads, objects)
      ensures references == old(references) && faults >= old(faults)
      ensures storage.Keys <= old(storage).Keys + {finalKey}
      ensures var required := Required(old(uploads), client, id, now, true);
              (required.Err? ==> r == Err(required.error)) &&
              (required.Ok? && required.value.status.Complete? ==> r == Committed(old(objects), required.value)) &&
              (required.Ok? && required.value.status.Open? ==>
                 if !AllParts(required.value) then r == Err(UploadIncomplete)
                 else
                   var content := WholeContent(required.value, old(storage), hash);
                   || r == CompletionVerdict(hash, required.value, content, finalKey, now)
                   || (r == Err(StorageUnavailable) && faults > old(faults)))
      ensures r.Err? || old(uploads)[id].status.Complete? ==>
                && objects == old(objects) && uploads == Looked(old(uploads), client, id, now)
                && StoragesAgree(old(storage), storage, {}) && (faults == old(faults) ==> storage == old(storage))
      ensures r.Ok? && old(uploads)[id].status.Open? ==>
                var u := old(uploads)[id];
                && objects == old(objects)[objectId := r.value]
                && uploads == old(uploads)[id := u.(status := Complete, objectId := Some(objectId))]
                && finalKey in storage && storage[finalKey] == WholeContent(u, old(storage), hash)
                && StoragesAgree(old(storage), storage, PartKeys(u))
                && (faults == old(faults) ==> storage.Keys == old(storage).Keys + {finalKey} - PartKeys(u))
    {
      hide Limited, ObjectRight, Advances, UploadRight, PartsApart, ContentsApart, ReferencesRight, UnreferencedRight,
           PartKeys, UploadsRight, ObjectsRight, StoragesAgree, WholeContent;
      SameStorageAgrees(storage);
      var required := RequireUpload(client, id, now, true);
      if required.Err? {
        return Err(required.error);
      }
      var u := required.value;
      if u.status.Complete? {
        return Committed(objects, u);
      }
      OneUploadRight(uploads, storage, hash, id);
      var complete := EveryPart(u, storage, hash);
      if !complete {
        return Err(UploadIncomplete);
      }
      ghost var content := WholeContent(u, storage, hash);
      StoredContent(uploads, objects, storage, hash, finalKey, content);
      var refusal := AssembleContent(u, finalKey, streams);
      if refusal.Some? {
        return Err(refusal.value);
      }
      var o := ObjectOf(u, finalKey, now);
      ObjectCommits(uploads, objects, references, old(storage), hash, id, objectId, o, content, now);
      objects := objects[objectId := o];
      uploads := uploads[id := u.(status := Complete, objectId := Some(objectId))];
      ghost var committed := storage;
      DeleteParts(u);
      CommitSettles(old(uploads), objects, old(storage), committed, storage, hash, id, objectId);
      r := Ok(o);
    }

    /** Ends an open upload for good; an upload that has ended already is only reported. */
    method CancelUpload(client: Client, id: Id) returns (r: Result<(Status, bool), Error>)
      requires Valid()
      modifies `uploads, `storage, `faults
      ensures Valid() && Advances(old(uploads), old(objects), uploads, objects)
      ensures storage.Keys <= old(storage).Keys
      ensures if id !in old(uploads) || old(uploads)[id].owner != client then r == Err(NotFound)
              else
                var status := old(uploads)[id].status;
                r == Ok((if status.Open? then Cancelled else status, status.Open?))
      ensures if r.Ok? && r.value.1
              then uploads == old(uploads)[id := old(uploads)[id].(status := Cancelled)]
                && StoragesAgree(old(storage), storage, PartKeys(old(uploads)[id]))
                   && (faults == old(faults) ==> storage == old(storage) - PartKeys(old(uploads)[id]))
              else uploads == old(uploads) && storage == old(storage)
    {
      hide Limited, PartKeys, PartsApart, ObjectRight, UploadRight, StoragesAgree, Advances;
      TimePasses(uploads, objects, latest, latest);
      if id !in uploads || uploads[id].owner != client {
        return Err(NotFound);
      }
      var u := uploads[id];
      if !u.status.Open? {
        return Ok((u.status, false));
      }
      UploadEnds(uploads, objects, storage, hash, id, Cancelled, latest);
      uploads := uploads[id := u.(status := Cancelled)];
      DeleteParts(u);
      PartsGo(old(uploads), uploads, objects, old(storage), storage, hash, id);
      r := Ok((Cancelled, true));
    }

    method Touch(ids: seq<Id>, deadline: Option<int>)
      requires AllDistinct(ids) && forall i :: 0 <= i < |ids| ==> ids[i] in objects
      modifies `objects
      ensures objects == Touched(old(objects), ids, deadline)
    {
      for i := 0 to |ids|
        invariant objects == Touched(old(objects), ids[..i], deadline)
      {
        var o := objects[ids[i]];
        assert ids[i] !in ids[..i];
        assert forall id :: id in ids[..i + 1] <==> id in ids[..i] || id == ids[i];
        objects := objects[ids[i] := o.(unreferencedAt := None, retainUntil := LaterOf(o.retainUntil, deadline))];
      }
      assert ids[..|ids|] == ids;
    }

    method Release(space: Space, previous: seq<Reference>, ids: seq<Id>, now: int)
      modifies `objects
      ensures objects == Released(old(objects), references, space, previous, ids, now)
    {
      for i := 0 to |previous|
        invariant objects == Released(old(objects), references, space, previous[..i], ids, now)
      {
        ReleasedNext(old(objects), references, space, previous, ids, now, i);
        hide Held, Names, Released;
        var prior := previous[i].objectId;
        if prior !in ids && prior in objects && objects[prior].space == space && !Held(references, space, prior) {
          objects := objects[prior := objects[prior].(unreferencedAt := Some(now))];
        }
      }
      assert previous[..|previous|] == previous;
    }

    /**
      Replaces what a reference set refers to. The named objects are held, and retained at least
      until the deadline; objects that nothing holds any more are unreferenced from now on.
     */
    method SetReferences(space: Space, referenceId: string, ids: seq<Id>, deadline: Option<int>, now: int)
        returns (r: Result<seq<StoredObject>, Error>)
      requires Valid()
      modifies `objects, `references
      ensures Valid() && Advances(old(uploads), old(objects), uploads, objects)
      ensures var refusal := ReferenceRefusal(old(objects), space, referenceId, ids);
              if refusal.Some? then r == Err(refusal.value) && objects == old(objects) && references == old(references)
              else
                && r.Ok? && references == Replaced(old(references), Holder(space, referenceId), ids, deadline)
                && |r.value| == |ids|
                   && (forall i :: 0 <= i < |ids| ==> ids[i] in objects && r.value[i] == objects[ids[i]])
                && Rereferenced(old(references), references, old(objects), objects, Holder(space, referenceId), ids,
                                deadline, now)
    {
      var refusal := ReferenceRefusal(objects, space, referenceId, ids);
      if refusal.Some? {
        TimePasses(uploads, objects, latest, latest);
        return Err(refusal.value);
      }
      var holder := Holder(space, referenceId);
      var previous := if holder in references then references[holder] else [];
      references := Replaced(references, holder, ids, deadline);
      Touch(ids, deadline);
      Release(space, previous, ids, now);
      hide Touched, Released, Replaced, ReferencesRight, UnreferencedRight, ObjectRight, Limited;
      ReferencesSettle(old(references), old(objects), objects, holder, ids, deadline, now);
      RereferencingAdvances(uploads, old(references), references, old(objects), objects, storage, hash, holder, ids,
                            deadline, now);
      var rows := Rows(objects, ids);
      r := Ok(rows);
    }

    method Drop(space: Space, now: int)
      modifies `objects
      ensures objects == Dropped(old(objects), references, space, now)
    {
      var rest := set id | id in objects && objects[id].space == space;
      while rest != {}
        invariant objects.Keys == old(objects).Keys && rest <= objects.Keys
                  && forall id :: id in rest ==> old(objects)[id].space == space
        invariant forall id :: id in objects ==>
                                 objects[id] == if id in rest then old(objects)[id]
                                   else Dropped(old(objects), references, space, now)[id]
        decreases |rest|
      {
        hide Held;
        var id :| id in rest;
        if !Held(references, space, id) && objects[id].unreferencedAt.None? {
          objects := objects[id := objects[id].(unreferencedAt := Some(now))];
        }
        rest := rest - {id};
      }
      assert objects == Dropped(old(objects), references, space, now);
    }

    /** Drops a reference set; objects that nothing holds any more are unreferenced from now on. */
    method DeleteReferences(space: Space, referenceId: string, now: int)
      requires Valid()
      modifies `objects, `references
      ensures Valid() && Advances(old(uploads), old(objects), uploads, objects)
      ensures references == old(references) - {Holder(space, referenceId)}
      ensures objects == Dropped(old(objects), references, space, now)
    {
      hide ObjectRight, Limited, PartsApart, UploadRight, Dropped;
      references := references - {Holder(space, referenceId)};
      Drop(space, now);
      DroppingSettles(old(references), old(objects), uploads, storage, hash, Holder(space, referenceId), now);
    }

    /**
      Ends uploads that have run out of time, and removes objects that are unreferenced, past their
      grace and not retained. An object goes only when its content could be deleted.
     */
    method Cleanup(now: int, backupRetainUntil: Option<int>) returns (expired: nat, deleted: nat)
      requires Valid()
      modifies `uploads, `objects, `storage, `faults
      ensures Valid() && Advances(old(uploads), old(objects), uploads, objects)
      ensures uploads.Keys == old(uploads).Keys && storage.Keys <= old(storage).Keys && faults >= old(faults)
      ensures forall id :: id in uploads ==>
                uploads[id] ==
                if old(uploads)[id].status.Open? && old(uploads)[id].expiresAt <= now
                then old(uploads)[id].(status := Expired) else old(uploads)[id]
      ensures expired ==
              |set id | id in old(uploads) && old(uploads)[id].status.Open? && old(uploads)[id].expiresAt <= now|
      ensures objects.Keys <= old(objects).Keys && forall id :: id in objects ==> objects[id] == old(objects)[id]
      ensures deleted == |old(objects).Keys - objects.Keys|
      ensures forall id :: id in old(objects).Keys - objects.Keys ==>
                var o := old(objects)[id];
                && o.unreferencedAt.Some? && o.unreferencedAt.value + grace <= now
                && (o.retainUntil.None? || o.retainUntil.value <= now)
                && (backupRetainUntil.None? || backupRetainUntil.value <= now)
                && (forall holder, i ::
                      holder in references && holder.space == o.space && 0 <= i < |references[holder]| ==>
                      references[holder][i].objectId != id)
                && o.storageKey !in storage
      ensures faults == old(faults) ==>
                forall id :: id in objects ==>
                  var o := objects[id];
                  || o.unreferencedAt.None? || now < o.unreferencedAt.value + grace
                  || (o.retainUntil.Some? && now < o.retainUntil.value)
                  || (backupRetainUntil.Some? && now < backupRetainUntil.value)
                  || (exists holder, i ::
                        holder in references && holder.space == o.space && 0 <= i < |references[holder]|
                        && references[holder][i].objectId == id)
    {
      hide Collectable, ObjectRight, Limited, PartsApart, UploadRight, UploadsRight, Advances, ReferencesRight,
           UnreferencedRight, ContentsApart, ObjectsRight, StoragesAgree, PartKeys;
      TimePasses(uploads, objects, latest, latest);
      expired := ExpireUploads(now);
      deleted := CollectObjects(now, backupRetainUntil);
      CollectingAdvances(old(uploads), uploads, old(objects), objects);
      ExpiredExactly(old(uploads), now);
      CollectedExactly(old(objects), objects, references, storage, grace, now, backupRetainUntil);
    }

    method ExpireUploads(now: int) returns (expired: nat)
      requires Valid()
      modifies `uploads, `storage, `faults
      ensures Valid() && Advances(old(uploads), old(objects), uploads, objects)
      ensures uploads == ExpireAll(old(uploads), now) && expired == |OutOfTime(old(uploads), now)|
      ensures storage.Keys <= old(storage).Keys && faults >= old(faults)
    {
      hide Limited, PartKeys, PartsApart, ObjectRight, UploadRight, StoragesAgree;
      expired := 0;
      var rest := OutOfTime(uploads, now);
      while rest != {}
        invariant Valid() && rest <= OutOfTime(old(uploads), now) && expired + |rest| == |OutOfTime(old(uploads), now)|
        invariant uploads.Keys == old(uploads).Keys && storage.Keys <= old(storage).Keys && faults >= old(faults)
        invariant forall id :: id in uploads ==>
                    uploads[id] == if id in rest then old(uploads)[id] else ExpireAll(old(uploads), now)[id]
        decreases |rest|
      {
        var id :| id in rest;
        rest := rest - {id};
        ghost var before, stored := uploads, storage;
        var u := uploads[id];
        UploadEnds(uploads, objects, storage, hash, id, Expired, latest);
        uploads := uploads[id := u.(status := Expired)];
        DeleteParts(u);
        PartsGo(before, uploads, objects, stored, storage, hash, id);
        expired := expired + 1;
      }
      assert uploads == ExpireAll(old(uploads), now);
    }

    method CollectObjects(now: int, backupRetainUntil: Option<int>) returns (deleted: nat)
      requires Valid()
      modifies `objects, `storage, `faults
      ensures Valid() && storage.Keys <= old(storage).Keys && faults >= old(faults)
      ensures objects.Keys <= old(objects).Keys && forall id :: id in objects ==> objects[id] == old(objects)[id]
      ensures deleted == |old(objects).Keys - objects.Keys|
      ensures forall id :: id in old(objects).Keys - objects.Keys ==>
                             Collectable(old(objects)[id], references, id, grace, now, backupRetainUntil)
                               && old(objects)[id].storageKey !in storage
      ensures faults == old(faults) ==>
                forall id :: id in objects ==> !Collectable(objects[id], references, id, grace, now, backupRetainUntil)
    {
      hide Valid, Collectable;
      deleted := 0;
      var rest := objects.Keys;
      ghost var gone: set<Id> := {};
      while rest != {}
        invariant Valid() && storage.Keys <= old(storage).Keys && faults >= old(faults) && gone !! rest
                  && deleted == |gone|
        invariant gone <= old(objects).Keys && objects == old(objects) - gone && rest <= objects.Keys
        invariant forall id :: id in gone ==>
                                 Collectable(old(objects)[id], references, id, grace, now, backupRetainUntil)
                                   && old(objects)[id].storageKey !in storage
        invariant faults == old(faults) ==>
                    forall id :: id in objects && id !in rest ==>
                             !Collectable(objects[id], references, id, grace, now, backupRetainUntil)
        decreases |rest|
      {
        var id :| id in rest;
        rest := rest - {id};
        var collected := CollectOne(id, now, backupRetainUntil);
        if collected {
          gone, deleted := gone + {id}, deleted + 1;
          assert objects == old(objects) - gone;
        }
      }
      assert old(objects).Keys - objects.Keys == gone;
    }

    method CollectOne(id: Id, now: int, backupRetainUntil: Option<int>) returns (collected: bool)
      requires Valid() && id in objects
      modifies `objects, `storage, `faults
      ensures Valid() && faults >= old(faults)
      ensures collected ==> Collectable(old(objects)[id], references, id, grace, now, backupRetainUntil)
      ensures if collected then objects == old(objects) - {id}
              && storage == old(storage) - {old(objects)[id].storageKey}
              else objects == old(objects) && storage == old(storage)
      ensures !collected && faults == old(faults) ==>
                !Collectable(old(objects)[id], references, id, grace, now, backupRetainUntil)
    {
      hide ObjectRight, Limited, PartsApart, UploadRight, UploadsRight, ReferencesRight, UnreferencedRight,
           ContentsApart, ObjectsRight, Held;
      collected := Collectable(objects[id], references, id, grace, now, backupRetainUntil);
      if collected {
        CollectingSettles(uploads, objects, references, storage, hash, id);
        collected := DeleteContent(objects[id].storageKey);
        if collected {
          objects := objects - {id};
        }
      }
    }
  }
}
