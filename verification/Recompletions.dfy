/**
  Completing an upload once more after cleanup has collected its object. The exact condition is in
  the contract of the completion: it answers with the object exactly as long as its row exists.
 */
module Recompletions {
  import opened ObjectServices
  import opened ObjectStores
  import opened Streams
  import opened UploadParts
  import opened Wrappers

  /** An upload whose only part, the signature, has arrived. */
  function Full(hash: Hash, client: Client): Upload {
    Upload(client, hash(PNG_SIGNATURE), 8, "note-image", Open, 0, UPLOAD_TTL,
           map[1 := Part(hash(PNG_SIGNATURE), 8, PartKey("p"))], None)
  }

  predicate OnlyParts(storage: Storage) {
    forall key :: key in storage ==> key.PartKey?
  }

  predicate OnlyUpload(hash: Hash, client: Client, uploads: Uploads, storage: Storage) {
    uploads == map["u" := Full(hash, client)] && storage == map[PartKey("p") := PNG_SIGNATURE]
  }

  /** A new service to which such an upload is made. */
  method OneUpload(hash: Hash, client: Client) returns (service: ObjectService)
    ensures fresh(service) && service.Valid() && service.hash == hash && service.grace == 1 && service.latest == 0
    ensures service.objects == map[] && service.references == map[] && OnlyParts(service.storage)
    ensures service.faults == 0 ==> OnlyUpload(hash, client, service.uploads, service.storage)
  {
    hide UploadsRight, PartsApart, Limited, ObjectsRight, ContentsApart, ReferencesRight, UnreferencedRight, Advances;
    service := new ObjectService(hash, 1, 0);
    assert ActiveUploads(service.uploads, client, 0) == {};
    var d := Declaration(Some(hash(PNG_SIGNATURE)), 8, PNG_MIME, "note-image");
    var created := service.CreateUpload(client, d, "u", 0);
    assert created.Ok?;
    OnePart(hash, client);
    var _ := service.PutPart(client, "u", 1, Some(hash(PNG_SIGNATURE)), [PNG_SIGNATURE], PartKey("p"), 0);
  }

  /** The object "o" was committed at the start and is not retained, and the upload names it. */
  predicate Completed(client: Client, uploads: Uploads, objects: Objects) {
    && "u" in uploads && uploads["u"].status.Complete? && uploads["u"].owner == client
       && uploads["u"].objectId == Some("o")
    && "o" in objects && objects["o"].unreferencedAt == Some(0) && objects["o"].retainUntil.None?
  }

  predicate OnlyContent(objects: Objects, storage: Storage) {
    && (forall key :: key in storage ==> key.PartKey? || key == ContentKey("k"))
    && (forall id :: id in objects ==> id == "o" && objects[id].storageKey == ContentKey("k"))
  }

  /** The upload completes. */
  method OneObject(service: ObjectService, client: Client, streams: Bytes -> seq<Bytes>)
    requires service.Valid() && service.latest == 0
    requires service.objects == map[] && service.references == map[] && OnlyParts(service.storage)
    requires forall body :: Concat(streams(body)) == body
    requires service.faults == 0 ==> OnlyUpload(service.hash, client, service.uploads, service.storage)
    modifies service
    ensures service.Valid() && service.latest == 0 && service.references == map[]
            && service.faults >= old(service.faults)
    ensures OnlyContent(service.objects, service.storage)
    ensures service.faults == 0 ==> Completed(client, service.uploads, service.objects)
  {
    hide UploadsRight, PartsApart, Limited, ObjectsRight, ContentsApart, ReferencesRight, UnreferencedRight, Advances,
         WholeContent;
    OnePart(service.hash, client);
    var _ := service.CompleteUpload(client, "u", ContentKey("k"), "o", streams, 0);
  }

  /** The object is collected. */
  method NoObject(service: ObjectService, client: Client)
    requires service.Valid() && service.references == map[] && service.grace == 1
    requires OnlyContent(service.objects, service.storage)
    requires service.faults == 0 ==> Completed(client, service.uploads, service.objects)
    modifies service
    ensures service.Valid() && service.latest == old(service.latest) && service.faults >= old(service.faults)
    ensures OnlyContent(service.objects, service.storage)
    ensures service.faults == 0 ==>
              && "u" in service.uploads && Required(service.uploads, client, "u", 1, true) == Ok(service.uploads["u"])
              && service.uploads["u"].status.Complete?
                 && Committed(service.objects, service.uploads["u"]) == Err(ObjectGone)
  {
    hide *;
    ghost var uploads, objects, storage := service.uploads, service.objects, service.storage;
    var _, _ := service.Cleanup(1, None);
    FewerContent(objects, storage, service.objects, service.storage);
    if service.faults == 0 {
      CompletedFacts(client, uploads, objects);
      assert "o" !in service.objects;
      GoesAway(uploads["u"], service.uploads, service.objects, client);
    }
  }

  lemma FewerContent(objects: Objects, storage: Storage, objects': Objects, storage': Storage)
    requires OnlyContent(objects, storage) && storage'.Keys <= storage.Keys && objects'.Keys <= objects.Keys
    requires forall id :: id in objects' ==> objects'[id] == objects[id]
    ensures OnlyContent(objects', storage')
  {
  }

  lemma CompletedFacts(client: Client, uploads: Uploads, objects: Objects)
    requires Completed(client, uploads, objects)
    ensures "o" in objects && objects["o"].unreferencedAt == Some(0) && objects["o"].retainUntil == None
    ensures "u" in uploads && uploads["u"].status == Complete && uploads["u"].owner == client
            && uploads["u"].objectId == Some("o")
  {
  }

  /**
    Completing an upload, collecting its object after the grace, and completing it again: when
    nothing fails on the way, the second answer finds no object.
   */
  method CollectedObjectIsGone(hash: Hash, streams: Bytes -> seq<Bytes>)
    returns (service: ObjectService, again: Result<StoredObject, Error>)
    requires forall body :: Concat(streams(body)) == body
    ensures service.faults == 0 ==> again == Err(ObjectGone)
  {
    hide *;
    var client := Client(Space("a", "s"), "c");
    service := OneUpload(hash, client);
    OneObject(service, client, streams);
    NoObject(service, client);
    Unused(service.objects, service.storage);
    again := service.CompleteUpload(client, "u", ContentKey("l"), "n", streams, 1);
  }

  lemma Unused(objects: Objects, storage: Storage)
    requires OnlyContent(objects, storage)
    ensures FreshContent(objects, storage, ContentKey("l")) && "n" !in objects
  {
  }

  /** The upload is still complete, and there is nothing left to answer with. */
  lemma GoesAway(u: Upload, uploads: Uploads, objects: Objects, client: Client)
    requires u.status == Complete && u.owner == client && u.objectId == Some("o")
    requires "u" in uploads && uploads["u"] == u && "o" !in objects
    ensures Required(uploads, client, "u", 1, true) == Ok(u) && Committed(objects, u) == Err(ObjectGone)
  {
  }

  /** The signature alone is the only part of an upload that declares it. */
  lemma OnePart(hash: Hash, client: Client)
    ensures PartCount(8) == 1 && PartBytes(8, 1) == 8 && Concat([PNG_SIGNATURE]) == PNG_SIGNATURE
    ensures AllParts(Full(hash, client))
    ensures WholeContent(Full(hash, client), map[PartKey("p") := PNG_SIGNATURE], hash) == PNG_SIGNATURE
  {
    assert [PNG_SIGNATURE][..0] == [];
    var u, storage := Full(hash, client), map[PartKey("p") := PNG_SIGNATURE];
    assert Assembled(u, storage, 1) == Assembled(u, storage, 0) + PNG_SIGNATURE;
  }
}
