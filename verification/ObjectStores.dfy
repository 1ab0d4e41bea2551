/**
  Uploads, committed objects and the references that keep them: what is true of the rows and of the
  stored bytes between any two requests.
 */
module ObjectStores {
  import opened Streams
  import opened UploadParts
  import opened Wrappers

  type Id = string
  type Digest = string

  /** Storage keys are drawn from one of two name spaces. */
  datatype StorageKey = PartKey(token: string) | ContentKey(token: string)

  type Storage = map<StorageKey, Bytes>

  datatype Space = Space(accountId: Id, spaceId: Id)

  datatype Client = Client(space: Space, clientId: Id)

  datatype Status = Open | Complete | Cancelled | Expired

  datatype Part = Part(digest: Digest, bytes: nat, storageKey: StorageKey)

  datatype Upload = Upload(
    owner: Client, digest: Digest, bytes: nat, purpose: string, status: Status,
    createdAt: int, expiresAt: int, parts: map<int, Part>, objectId: Option<Id>)

  datatype StoredObject = StoredObject(
    space: Space, digest: Digest, bytes: nat, purpose: string, storageKey: StorageKey,
    committedAt: int, unreferencedAt: Option<int>, retainUntil: Option<int>)

  datatype Reference = Reference(objectId: Id, retainUntil: Option<int>)

  /** A reference set is named by its space and its own identifier. */
  datatype Holder = Holder(space: Space, referenceId: string)

  type Uploads = map<Id, Upload>
  type Objects = map<Id, StoredObject>
  type References = map<Holder, seq<Reference>>

  /** The digest of a content. */
  type Hash = Bytes -> Digest

  const MAX_TRANSFERS := 4
  const UPLOAD_TTL := 24 * 60 * 60 * 1000

  // ---------------------------------------------------------------- uploads

  ghost predicate PartStored(p: Part, storage: Storage, hash: Hash) {
    && p.storageKey in storage && p.storageKey.PartKey?
    && |storage[p.storageKey]| == p.bytes && hash(storage[p.storageKey]) == p.digest
  }

  /** Every part is one of the expected parts; those of an open upload are stored and have their digest. */
  ghost predicate UploadRight(u: Upload, storage: Storage, hash: Hash) {
    && |PNG_SIGNATURE| <= u.bytes && PartCount(u.bytes) <= MAX_PARTS
    && (u.status.Complete? ==> u.objectId.Some?)
    && forall n :: n in u.parts ==>
                     && 1 <= n <= PartCount(u.bytes) && u.parts[n].bytes == PartBytes(u.bytes, n)
                     && (u.status.Open? ==> PartStored(u.parts[n], storage, hash))
  }

  ghost predicate UploadsRight(uploads: Uploads, storage: Storage, hash: Hash) {
    forall id :: id in uploads ==> UploadRight(uploads[id], storage, hash)
  }

  /** No two parts share a storage key. */
  ghost predicate PartsApart(uploads: Uploads) {
    forall i, m, j, n :: i in uploads && j in uploads && m in uploads[i].parts && n in uploads[j].parts ==>
                           uploads[i].parts[m].storageKey == uploads[j].parts[n].storageKey ==> i == j && m == n
  }

  predicate Active(u: Upload, client: Client, now: int) {
    u.owner == client && u.status.Open? && u.expiresAt > now
  }

  function ActiveUploads(uploads: Uploads, client: Client, now: int): set<Id> {
    set id | id in uploads && Active(uploads[id], client, now)
  }

  /** At most four unexpired open uploads of any client. */
  ghost predicate Limited(uploads: Uploads, now: int) {
    forall client :: |ActiveUploads(uploads, client, now)| <= MAX_TRANSFERS
  }

  // ---------------------------------------------------------------- objects

  /** The stored content of an object has the declared length and digest and is a PNG. */
  ghost predicate ObjectRight(o: StoredObject, storage: Storage, hash: Hash) {
    && o.storageKey in storage && o.storageKey.ContentKey?
    && |storage[o.storageKey]| == o.bytes && hash(storage[o.storageKey]) == o.digest
    && PNG_SIGNATURE <= storage[o.storageKey]
  }

  ghost predicate ObjectsRight(objects: Objects, storage: Storage, hash: Hash) {
    forall id :: id in objects ==> ObjectRight(objects[id], storage, hash)
  }

  ghost predicate ContentsApart(objects: Objects) {
    forall i, j :: i in objects && j in objects && objects[i].storageKey == objects[j].storageKey ==> i == j
  }

  // ---------------------------------------------------------------- references

  predicate Names(references: seq<Reference>, objectId: Id) {
    exists i :: 0 <= i < |references| && references[i].objectId == objectId
  }

  predicate Held(references: References, space: Space, objectId: Id) {
    exists holder :: holder in references && holder.space == space && Names(references[holder], objectId)
  }

  /** Everything that is referenced exists, in the same space. */
  ghost predicate ReferencesRight(references: References, objects: Objects) {
    forall holder, id :: holder in references && Names(references[holder], id) ==>
             id in objects && objects[id].space == holder.space
  }

  /** An object has no time of last use exactly as long as something refers to it. */
  ghost predicate UnreferencedRight(references: References, objects: Objects) {
    forall id :: id in objects ==> (objects[id].unreferencedAt.None? <==> Held(references, objects[id].space, id))
  }

  // ---------------------------------------------------------------- what no request undoes

  predicate NotEarlier(before: Option<int>, after: Option<int>) {
    before.Some? ==> after.Some? && before.value <= after.value
  }

  /** An upload row only moves forward: what was declared stays, and a terminal row never changes. */
  predicate UploadAdvances(u: Upload, u': Upload) {
    if u.status.Open? then
      && u'.owner == u.owner && u'.digest == u.digest && u'.bytes == u.bytes && u'.purpose == u.purpose
      && u'.createdAt == u.createdAt && u'.expiresAt == u.expiresAt
    else u' == u
  }

  ghost predicate Advances(uploads: Uploads, objects: Objects, uploads': Uploads, objects': Objects) {
    && (forall id :: id in uploads ==> id in uploads' && UploadAdvances(uploads[id], uploads'[id]))
    && (forall id :: id in objects && id in objects' ==> ObjectAdvances(objects[id], objects'[id]))
  }

  /** Only the bookkeeping of references changes on an object, and its retention never shrinks. */
  predicate ObjectAdvances(o: StoredObject, o': StoredObject) {
    o' == o.(unreferencedAt := o'.unreferencedAt, retainUntil := o'.retainUntil)
      && NotEarlier(o.retainUntil, o'.retainUntil)
  }

  // ---------------------------------------------------------------- lemmas about single changes

  /** Time passing, or an upload ending, never adds an active upload. */
  lemma FewerActive(uploads: Uploads, now: int, uploads': Uploads, later: int)
    requires Limited(uploads, now) && now <= later
    requires forall id :: id in uploads' && uploads'[id].status.Open? ==>
                            id in uploads && uploads[id].status.Open? && uploads[id].owner == uploads'[id].owner
                              && uploads[id].expiresAt == uploads'[id].expiresAt
    ensures Limited(uploads', later)
  {
    forall client ensures |ActiveUploads(uploads', client, later)| <= MAX_TRANSFERS {
      Smaller(ActiveUploads(uploads', client, later), ActiveUploads(uploads, client, now));
    }
  }

  lemma Smaller<T>(a: set<T>, b: set<T>)
    requires a <= b
    ensures |a| <= |b|
  {
    assert b == a + (b - a);
  }

  /** One more upload, when the client has fewer than four. */
  lemma OneMoreActive(uploads: Uploads, now: int, id: Id, u: Upload)
    requires Limited(uploads, now) && id !in uploads && |ActiveUploads(uploads, u.owner, now)| < MAX_TRANSFERS
    ensures Limited(uploads[id := u], now)
  {
    var uploads' := uploads[id := u];
    forall client ensures |ActiveUploads(uploads', client, now)| <= MAX_TRANSFERS {
      var before := ActiveUploads(uploads, client, now);
      Smaller(ActiveUploads(uploads', client, now), if client == u.owner then before + {id} else before);
    }
  }

  /** Storage in which all contents of a kind of key are still there. */
  ghost predicate StoragesAgree(storage: Storage, storage': Storage, keys: set<StorageKey>) {
    forall key :: key in storage && key !in keys ==> key in storage' && storage'[key] == storage[key]
  }

  function PartKeys(u: Upload): set<StorageKey> {
    set n | n in u.parts :: u.parts[n].storageKey
  }

  /** Uploads that keep their parts in storage stay right. */
  lemma UploadStaysRight(u: Upload, storage: Storage, storage': Storage, keys: set<StorageKey>, hash: Hash)
    requires UploadRight(u, storage, hash) && StoragesAgree(storage, storage', keys)
    requires u.status.Open? ==> PartKeys(u) !! keys
    ensures UploadRight(u, storage', hash)
  {
    forall n | n in u.parts && u.status.Open? ensures PartStored(u.parts[n], storage', hash) {
      assert u.parts[n].storageKey in PartKeys(u);
    }
  }

  lemma UploadsStayRight(uploads: Uploads, storage: Storage, storage': Storage, keys: set<StorageKey>, hash: Hash)
    requires UploadsRight(uploads, storage, hash) && StoragesAgree(storage, storage', keys)
    requires forall id :: id in uploads && uploads[id].status.Open? ==> PartKeys(uploads[id]) !! keys
    ensures UploadsRight(uploads, storage', hash)
  {
    hide UploadRight, StoragesAgree, PartKeys;
    forall id | id in uploads ensures UploadRight(uploads[id], storage', hash) {
      UploadStaysRight(uploads[id], storage, storage', keys, hash);
    }
  }

  lemma ObjectsStayRight(objects: Objects, storage: Storage, storage': Storage, keys: set<StorageKey>, hash: Hash)
    requires ObjectsRight(objects, storage, hash) && StoragesAgree(storage, storage', keys)
    requires forall id :: id in objects ==> objects[id].storageKey !in keys
    ensures ObjectsRight(objects, storage', hash)
  {
  }

  /** Changing the status of a row does not disturb the others. */
  lemma OtherPartsApart(uploads: Uploads, id: Id, u: Upload)
    requires PartsApart(uploads) && id in uploads && u.parts == uploads[id].parts
    ensures PartsApart(uploads[id := u])
  {
  }

  lemma OwnPartsApart(uploads: Uploads, id: Id)
    requires PartsApart(uploads) && id in uploads
    ensures forall other :: other in uploads && other != id ==> PartKeys(uploads[other]) !! PartKeys(uploads[id])
  {
  }

  /** A fresh key for a part. */
  ghost predicate FreshPart(uploads: Uploads, storage: Storage, key: StorageKey) {
    key.PartKey? && key !in storage
      && forall id, n :: id in uploads && n in uploads[id].parts ==> uploads[id].parts[n].storageKey != key
  }

  ghost predicate FreshContent(objects: Objects, storage: Storage, key: StorageKey) {
    key.ContentKey? && key !in storage && forall id :: id in objects ==> objects[id].storageKey != key
  }

  lemma PartAddedApart(uploads: Uploads, storage: Storage, id: Id, n: int, p: Part)
    requires PartsApart(uploads) && id in uploads && n !in uploads[id].parts
             && FreshPart(uploads, storage, p.storageKey)
    ensures PartsApart(uploads[id := uploads[id].(parts := uploads[id].parts[n := p])])
  {
  }

  // ---------------------------------------------------------------- the content of an upload

  /** The contents of the first parts, in order. */
  function Assembled(u: Upload, storage: Storage, count: nat): Bytes
    requires forall n :: 1 <= n <= count ==> n in u.parts && u.parts[n].storageKey in storage
  {
    if count == 0 then [] else Assembled(u, storage, count - 1) + storage[u.parts[count].storageKey]
  }

  predicate AllParts(u: Upload) {
    forall n :: 1 <= n <= PartCount(u.bytes) ==> n in u.parts
  }

  /** With as many parts as expected and each of them there, there are no others. */
  lemma {:induction false} AssembledLength(u: Upload, storage: Storage, hash: Hash, count: nat)
    requires UploadRight(u, storage, hash) && u.status.Open? && AllParts(u) && count <= PartCount(u.bytes)
    ensures |Assembled(u, storage, count)| == SumOfParts(u.bytes, count)
  {
    if count > 0 {
      AssembledLength(u, storage, hash, count - 1);
    }
  }

  /** Each part lies where its number puts it: part n holds the bytes from (n - 1) * 8 MiB on. */
  lemma {:induction false} AssembledAt(u: Upload, storage: Storage, hash: Hash, count: nat, n: nat)
    requires UploadRight(u, storage, hash) && u.status.Open? && AllParts(u) && 1 <= n <= count <= PartCount(u.bytes)
    ensures var content, part := Assembled(u, storage, count), storage[u.parts[n].storageKey];
            (n - 1) * 8388608 + |part| <= |content| && content[(n - 1) * 8388608..][..|part|] == part
    decreases count
  {
    AssembledLength(u, storage, hash, count - 1);
    SumOfFullParts(u.bytes, count - 1);
    var rest, last := Assembled(u, storage, count - 1), storage[u.parts[count].storageKey];
    if n < count {
      AssembledAt(u, storage, hash, count - 1, n);
      PrefixSlice(rest, last, (n - 1) * 8388608, |storage[u.parts[n].storageKey]|);
    } else {
      assert (rest + last)[|rest|..] == last;
    }
  }

  lemma PrefixSlice(content: Bytes, more: Bytes, start: nat, length: nat)
    requires start + length <= |content|
    ensures (content + more)[start..][..length] == content[start..][..length]
  {
  }

  /** All parts are there exactly when every byte of the object lies in one that is. */
  lemma AllPartsExactly(u: Upload)
    ensures AllParts(u) <==> forall position: nat :: position < u.bytes ==> position / 8388608 + 1 in u.parts
  {
    if AllParts(u) {
      forall position: nat | position < u.bytes ensures position / 8388608 + 1 in u.parts {
        assert 1 <= position / 8388608 + 1 <= PartCount(u.bytes);
      }
    } else {
      var n :| 1 <= n <= PartCount(u.bytes) && n !in u.parts;
      var position: nat := (n - 1) * 8388608;
      assert position < u.bytes && position / 8388608 + 1 == n;
    }
  }

  /** The parts of a complete upload have exactly the declared length together. */
  lemma AssembledIsWhole(u: Upload, storage: Storage, hash: Hash)
    requires UploadRight(u, storage, hash) && u.status.Open? && AllParts(u)
    ensures |Assembled(u, storage, PartCount(u.bytes))| == u.bytes
  {
    AssembledLength(u, storage, hash, PartCount(u.bytes));
    PartsCoverObject(u.bytes);
  }
}
