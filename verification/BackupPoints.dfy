/**
  Backup points in a key store: the sealed manifest, the sealed chunks it lists, the commit marker,
  and what verification reads out of them. Encryption is ideal: a ciphertext is the key, the
  associated data and the plaintext, and a digest of a value is the value.
 */
module BackupPoints {
  import opened CodeUnits
  import opened PointFiles
  import opened Streams
  import opened Wrappers

  type Id = string

  datatype Cipher = Cipher(key: string, aad: string, plain: Bytes)

  /** What a manifest records about one ciphertext. */
  datatype Envelope = Envelope(digest: Cipher, plainBytes: nat, plainDigest: Bytes)

  datatype Descriptor = Descriptor(metadata: string, bytes: Option<int>, digest: Option<Bytes>)

  /** A backed-up object: what is recorded about it, and its content. */
  datatype Item = Item(descriptor: Descriptor, body: Bytes)

  datatype Kind = Logical | Object | Unknown

  /** One chunk of a point; chunks of one object share its artifact identifier and descriptor. */
  datatype Entry = Entry(path: string, kind: Kind, artifactId: string, descriptor: Option<Descriptor>,
                         envelope: Envelope, aad: string)

  datatype Manifest = Manifest(manifestId: Id, createdAt: nat, entries: seq<Entry>, objectCount: nat, objectBytes: nat,
                               keyId: string)

  /** An encrypted manifest; its text may turn out not to be a manifest of the known format. */
  datatype SealedManifest = SealedManifest(key: string, aad: string, manifest: Option<Manifest>)

  datatype WrappedKey = WrappedKey(master: string, keyId: string, dataKey: string)

  datatype Record = Record(sealed: SealedManifest, digest: SealedManifest, wrapped: Option<WrappedKey>)

  datatype Marker = Marker(manifestId: Id, digest: Option<SealedManifest>)

  /** A stored file; a write that fails half-way may leave a torn one. */
  datatype File = Chunk(cipher: Cipher) | ManifestFile(record: Record) | MarkerFile(marker: Marker) | Torn

  datatype Place = Temporary(id: Id) | Point(id: Id)

  datatype Key = Key(place: Place, file: string)

  type Store = map<Key, File>

  /** The keys at hand, and what the backed-up system itself says about restored data. */
  datatype Env = Env(master: string, keyId: string, isJson: Bytes -> bool, validates: (Bytes, seq<Item>) -> bool)

  datatype Reason =
    | MissingMarker | InvalidMarker | MarkerMismatch
    | MissingManifest | InvalidEnvelope | MissingWrappedKey | InvalidManifest | KeyIdMismatch
    | InvalidEntryKind | MissingEntry | CipherDigestMismatch | AuthenticationFailed | PlaintextMismatch
    | InvalidObjectEntry | ObjectMetadataMismatch | InvalidLogicalData
    | ObjectSizeMismatch | ObjectDigestMismatch | InventoryMismatch | SnapshotRejected
    | TargetFailed

  // ---------------------------------------------------------------- verification

  function SealEnvelope(c: Cipher): Envelope {
    Envelope(c, |c.plain|, c.plain)
  }

  function Unseal(e: Envelope, c: Cipher, key: string, aad: string): Result<Bytes, Reason> {
    if e.digest != c then Err(CipherDigestMismatch)
    else if c.key != key || c.aad != aad then Err(AuthenticationFailed)
    else if |c.plain| != e.plainBytes || c.plain != e.plainDigest then Err(PlaintextMismatch)
    else Ok(c.plain)
  }

  function ManifestAad(id: Id): string {
    id + ":manifest"
  }

  /** The manifest at a place and the key of its chunks. */
  function OpenManifest(env: Env, store: Store, place: Place, id: Id,
                        expected: Option<SealedManifest>): Result<(Manifest, string), Reason> {
    if Key(place, MANIFEST) !in store then Err(MissingManifest)
    else if !store[Key(place, MANIFEST)].ManifestFile? then Err(InvalidEnvelope)
    else
      var record := store[Key(place, MANIFEST)].record;
      if expected.Some? && record.digest != expected.value then Err(MarkerMismatch)
      else if record.wrapped.None? then Err(MissingWrappedKey)
      else if record.wrapped.value.master != env.master then Err(AuthenticationFailed)
      else if record.digest != record.sealed then Err(CipherDigestMismatch)
      else if record.sealed.key != record.wrapped.value.dataKey
        || record.sealed.aad != ManifestAad(id) then Err(AuthenticationFailed)
      else if record.sealed.manifest.None? || record.sealed.manifest.value.manifestId != id then Err(InvalidManifest)
      else if record.sealed.manifest.value.keyId != record.wrapped.value.keyId then Err(KeyIdMismatch)
      else Ok((record.sealed.manifest.value, record.wrapped.value.dataKey))
  }

  function ReadEntry(store: Store, place: Place, dataKey: string, e: Entry): Result<Bytes, Reason> {
    if e.kind.Unknown? then Err(InvalidEntryKind)
    else if Key(place, e.path) !in store then Err(MissingEntry)
    else if !store[Key(place, e.path)].Chunk? then Err(CipherDigestMismatch)
    else Unseal(e.envelope, store[Key(place, e.path)].cipher, dataKey, e.aad)
  }

  /** What has been read: the logical data so far, and the objects in order of first appearance. */
  datatype Reading = Reading(payload: Bytes, order: seq<string>, items: map<string, Item>)

  function AddEntry(r: Reading, e: Entry, plain: Bytes): Result<Reading, Reason> {
    if e.kind.Logical? then Ok(r.(payload := r.payload + plain))
    else if e.artifactId == "" || e.descriptor.None? then Err(InvalidObjectEntry)
    else if e.artifactId !in r.items then
      Ok(r.(order := r.order + [e.artifactId], items := r.items[e.artifactId := Item(e.descriptor.value, plain)]))
    else if r.items[e.artifactId].descriptor != e.descriptor.value then Err(ObjectMetadataMismatch)
    else Ok(r.(items := r.items[e.artifactId := Item(e.descriptor.value, r.items[e.artifactId].body + plain)]))
  }

  function ReadAll(store: Store, place: Place, dataKey: string, entries: seq<Entry>): Result<Reading, Reason> {
    if entries == [] then Ok(Reading([], [], map[]))
    else
      var n := |entries| - 1;
      var r := ReadAll(store, place, dataKey, entries[..n]);
      if r.Err? then r
      else
        var plain := ReadEntry(store, place, dataKey, entries[n]);
        if plain.Err? then Err(plain.error) else AddEntry(r.value, entries[n], plain.value)
  }

  ghost predicate Ordered(r: Reading) {
    && (forall id :: id in r.order <==> id in r.items)
    && (forall i, j :: 0 <= i < j < |r.order| ==> r.order[i] != r.order[j])
  }

  lemma {:induction false} ReadAllOrders(store: Store, place: Place, dataKey: string, entries: seq<Entry>)
    ensures var r := ReadAll(store, place, dataKey, entries); r.Ok? ==> Ordered(r.value)
    decreases |entries|
  {
    hide ReadEntry;
    if entries != [] {
      ReadAllOrders(store, place, dataKey, entries[..|entries| - 1]);
    }
  }

  function Items(r: Reading): seq<Item>
    requires Ordered(r)
  {
    seq(|r.order|, i requires 0 <= i < |r.order| => r.items[r.order[i]])
  }

  function CheckItem(item: Item): Option<Reason> {
    if item.descriptor.bytes.Some? && item.descriptor.bytes.value != |item.body| then Some(ObjectSizeMismatch)
    else if item.descriptor.digest.Some? && item.descriptor.digest.value != item.body then Some(ObjectDigestMismatch)
    else None
  }

  /** The first complaint about any of the objects. */
  function CheckItems(items: seq<Item>): Option<Reason> {
    if items == [] then None
    else if CheckItem(items[0]).Some? then CheckItem(items[0])
    else CheckItems(items[1..])
  }

  function TotalBytes(items: seq<Item>): nat {
    if items == [] then 0 else TotalBytes(items[..|items| - 1]) + |items[|items| - 1].body|
  }

  datatype Contents = Contents(manifest: Manifest, payload: Bytes, items: seq<Item>)

  function Conclude(env: Env, manifest: Manifest, r: Reading): Result<Contents, Reason>
    requires Ordered(r)
  {
    var items := Items(r);
    if !env.isJson(r.payload) then Err(InvalidLogicalData)
    else if CheckItems(items).Some? then Err(CheckItems(items).value)
    else if |items| != manifest.objectCount || TotalBytes(items) != manifest.objectBytes then Err(InventoryMismatch)
    else if !env.validates(r.payload, items) then Err(SnapshotRejected)
    else Ok(Contents(manifest, r.payload, items))
  }

  function VerifyAt(env: Env, store: Store, place: Place, id: Id,
                    expected: Option<SealedManifest>): Result<Contents, Reason> {
    var opening := OpenManifest(env, store, place, id, expected);
    if opening.Err? then Err(opening.error)
    else
      var (manifest, dataKey) := opening.value;
      var r := ReadAll(store, place, dataKey, manifest.entries);
      if r.Err? then Err(r.error)
      else
        ReadAllOrders(store, place, dataKey, manifest.entries);
        Conclude(env, manifest, r.value)
  }

  function ReadMarker(store: Store, id: Id): Result<Marker, Reason> {
    if Key(Point(id), MARKER) !in store then Err(MissingMarker)
    else if !store[Key(Point(id), MARKER)].MarkerFile? then Err(InvalidMarker)
    else if store[Key(Point(id), MARKER)].marker.manifestId != id then Err(MarkerMismatch)
    else Ok(store[Key(Point(id), MARKER)].marker)
  }

  /** Verification of a published point, starting from its commit marker. */
  function Verify(env: Env, store: Store, id: Id): Result<Contents, Reason> {
    var marker := ReadMarker(store, id);
    if marker.Err? then Err(marker.error) else VerifyAt(env, store, Point(id), id, marker.value.digest)
  }

  // ---------------------------------------------------------------- a marker fixes the contents

  lemma {:induction false} DigestsFixReading(store: Store, place: Place, store': Store, place': Place, dataKey: string,
                                             entries: seq<Entry>)
    requires ReadAll(store, place, dataKey, entries).Ok? && ReadAll(store', place', dataKey, entries).Ok?
    ensures ReadAll(store, place, dataKey, entries) == ReadAll(store', place', dataKey, entries)
    decreases |entries|
  {
    hide AddEntry;
    if entries != [] {
      DigestsFixReading(store, place, store', place', dataKey, entries[..|entries| - 1]);
    }
  }

  /**
    Whatever else happens to the stores, two points that verify under markers with one manifest
    digest hold the same data: a verified point cannot have been altered.
   */
  lemma MarkerFixesContents(env: Env, store: Store, store': Store, id: Id)
    requires Verify(env, store, id).Ok? && Verify(env, store', id).Ok?
    requires ReadMarker(store, id).value == ReadMarker(store', id).value && ReadMarker(store, id).value.digest.Some?
    ensures Verify(env, store, id) == Verify(env, store', id)
  {
    var expected := ReadMarker(store, id).value.digest;
    var (manifest, dataKey) := OpenManifest(env, store, Point(id), id, expected).value;
    assert OpenManifest(env, store', Point(id), id, expected).value == (manifest, dataKey);
    DigestsFixReading(store, Point(id), store', Point(id), dataKey, manifest.entries);
  }

  // ---------------------------------------------------------------- what verification depends on

  ghost predicate Same(store: Store, key: Key, store': Store, key': Key) {
    (key in store <==> key' in store') && (key in store ==> store[key] == store'[key'])
  }

  /** Two places with the same files, as far as names that sort after the commit marker go. */
  ghost predicate SameAfterMarker(store: Store, place: Place, store': Store, place': Place) {
    forall file :: Less(MARKER, file) ==> Same(store, Key(place, file), store', Key(place', file))
  }

  ghost predicate SortedAfterMarker(entries: seq<Entry>) {
    forall e :: e in entries ==> Less(MARKER, e.path)
  }

  lemma {:induction false} SameReading(store: Store, place: Place, store': Store, place': Place, dataKey: string,
                                       entries: seq<Entry>)
    requires SameAfterMarker(store, place, store', place') && SortedAfterMarker(entries)
    ensures ReadAll(store, place, dataKey, entries) == ReadAll(store', place', dataKey, entries)
    decreases |entries|
  {
    hide AddEntry, Less;
    if entries != [] {
      var e := entries[|entries| - 1];
      SameReading(store, place, store', place', dataKey, entries[..|entries| - 1]);
      assert Same(store, Key(place, e.path), store', Key(place', e.path));
    }
  }

  lemma SameVerdict(env: Env, store: Store, place: Place, store': Store, place': Place, id: Id,
                    expected: Option<SealedManifest>)
    requires SameAfterMarker(store, place, store', place')
    requires VerifyAt(env, store, place, id, expected).Ok?
             && SortedAfterMarker(VerifyAt(env, store, place, id, expected).value.manifest.entries)
    ensures VerifyAt(env, store', place', id, expected) == VerifyAt(env, store, place, id, expected)
  {
    KeysSortAfterMarker(0, "");
    assert Same(store, Key(place, MANIFEST), store', Key(place', MANIFEST));
    var (manifest, dataKey) := OpenManifest(env, store, place, id, expected).value;
    SameReading(store, place, store', place', dataKey, manifest.entries);
  }

  // ---------------------------------------------------------------- a store in which markers can be trusted

  /** A point verifies, and none of its chunks sorts before its marker. */
  ghost predicate Sound(env: Env, store: Store, id: Id) {
    Verify(env, store, id).Ok? && SortedAfterMarker(Verify(env, store, id).value.manifest.entries)
  }

  predicate Marked(store: Store, id: Id) {
    Key(Point(id), MARKER) in store
  }

  /** A marker that was written half-way: it names no manifest, and its point is listed as failed. */
  predicate TornMarker(store: Store, id: Id) {
    Marked(store, id) && store[Key(Point(id), MARKER)].Torn?
  }

  /** A whole commit marker is there. */
  predicate Visible(store: Store, id: Id) {
    Marked(store, id) && !TornMarker(store, id)
  }

  /** Wherever there is a commit marker it is torn, or its point verifies. */
  ghost predicate Safe(env: Env, store: Store) {
    forall id :: Marked(store, id) ==> TornMarker(store, id) || Sound(env, store, id)
  }

  /** The published files of a point are the same in both stores. */
  ghost predicate PointKept(store: Store, store': Store, id: Id) {
    forall file :: Same(store, Key(Point(id), file), store', Key(Point(id), file))
  }

  lemma KeptPointVerifies(env: Env, store: Store, store': Store, id: Id)
    requires Sound(env, store, id)
    requires Same(store, Key(Point(id), MARKER), store', Key(Point(id), MARKER))
             && SameAfterMarker(store, Point(id), store', Point(id))
    ensures Sound(env, store', id) && Verify(env, store', id) == Verify(env, store, id)
  {
    hide VerifyAt;
    SameVerdict(env, store, Point(id), store', Point(id), id, ReadMarker(store, id).value.digest);
  }

  /** Safety passes over to a store whose points are the same, all but one whose marker is not there. */
  lemma SafetyPassesOver(env: Env, store: Store, store': Store, except: set<Id>)
    requires Safe(env, store)
    requires forall id :: id !in except ==> PointKept(store, store', id)
    requires forall id :: id in except ==> !Visible(store', id) || Sound(env, store', id)
    ensures Safe(env, store')
  {
    forall id | Marked(store', id) && !TornMarker(store', id) ensures Sound(env, store', id) {
      if id !in except {
        assert PointKept(store, store', id);
        assert Same(store, Key(Point(id), MARKER), store', Key(Point(id), MARKER));
        KeptPointVerifies(env, store, store', id);
      }
    }
  }

  // ---------------------------------------------------------------- what a backup writes

  /** Where chunks come from: the logical data, or one of the objects. */
  datatype Source = Data | ObjectAt(artifactId: string, descriptor: Descriptor)

  function PathOf(source: Source, index: nat): string {
    match source
    case Data => ChunkKey(index + 1)
    case ObjectAt(artifactId, _) => ObjectKey(artifactId, index + 1)
  }

  function EntryOf(id: Id, dataKey: string, source: Source, index: nat, plain: Bytes): Entry {
    var path := PathOf(source, index);
    var aad := id + ":" + path;
    var envelope := SealEnvelope(Cipher(dataKey, aad, plain));
    match source
    case Data => Entry(path, Logical, "", None, envelope, aad)
    case ObjectAt(artifactId, descriptor) => Entry(path, Object, artifactId, Some(descriptor), envelope, aad)
  }

  function EntriesOf(id: Id, dataKey: string, source: Source, chunks: seq<Bytes>): seq<Entry> {
    seq(|chunks|, j requires 0 <= j < |chunks| => EntryOf(id, dataKey, source, j, chunks[j]))
  }

  /** Objects are numbered from one. */
  function ArtifactAt(index: nat): (artifactId: string)
    ensures artifactId != ""
  {
    ArtifactId(index + 1)
  }

  lemma ArtifactsAreDistinct(i: nat, j: nat)
    ensures ArtifactAt(i) == ArtifactAt(j) ==> i == j
  {
    ArtifactIdsAreDistinct(i + 1, j + 1);
  }

  function SourceOf(items: seq<Item>, index: nat): Source
    requires index < |items|
  {
    ObjectAt(ArtifactAt(index), items[index].descriptor)
  }

  function AllEntries(id: Id, dataKey: string, payload: Bytes, items: seq<Item>, chunkBytes: nat): seq<Entry>
    requires chunkBytes > 0
  {
    if items == [] then EntriesOf(id, dataKey, Data, Chunks(payload, chunkBytes))
    else
      var n := |items| - 1;
      AllEntries(id, dataKey, payload, items[..n], chunkBytes) + EntriesOf(id, dataKey, SourceOf(items, n),
            Chunks(items[n].body, chunkBytes))
  }

  function ManifestOf(env: Env, id: Id, dataKey: string, createdAt: nat, payload: Bytes, items: seq<Item>,
                      chunkBytes: nat): Manifest
    requires chunkBytes > 0
  {
    Manifest(id, createdAt, AllEntries(id, dataKey, payload, items, chunkBytes), |items|, TotalBytes(items), env.keyId)
  }

  function RecordOf(env: Env, dataKey: string, manifest: Manifest): Record {
    var sealed := SealedManifest(dataKey, ManifestAad(manifest.manifestId), Some(manifest));
    Record(sealed, sealed, Some(WrappedKey(env.master, env.keyId, dataKey)))
  }

  /** Each listed chunk is stored under its path. */
  ghost predicate EntriesStored(store: Store, place: Place, entries: seq<Entry>) {
    forall e :: e in entries ==> EntryStored(store, place, e)
  }

  ghost predicate EntryStored(store: Store, place: Place, e: Entry) {
    Key(place, e.path) in store && store[Key(place, e.path)] == Chunk(e.envelope.digest)
  }

  predicate NamesEntry(entries: seq<Entry>, name: string) {
    exists i :: 0 <= i < |entries| && entries[i].path == name
  }

  /** The listed chunks are stored, and there is no other file. */
  ghost predicate HoldsEntries(store: Store, place: Place, entries: seq<Entry>) {
    EntriesStored(store, place, entries) && forall name :: Key(place, name) in store ==> NamesEntry(entries, name)
  }

  function MarkerOf(env: Env, dataKey: string, manifest: Manifest): Marker {
    Marker(manifest.manifestId, Some(RecordOf(env, dataKey, manifest).digest))
  }

  /** The published files of a point are the chunks, the manifest and the marker of one backup. */
  ghost predicate HoldsPoint(env: Env, store: Store, id: Id, dataKey: string, manifest: Manifest) {
    && EntriesStored(store, Point(id), manifest.entries)
    && Key(Point(id), MANIFEST) in store
       && store[Key(Point(id), MANIFEST)] == ManifestFile(RecordOf(env, dataKey, manifest))
    && Key(Point(id), MARKER) in store && store[Key(Point(id), MARKER)] == MarkerFile(MarkerOf(env, dataKey, manifest))
    && forall name :: Key(Point(id), name) in store ==>
         name == MARKER || name == MANIFEST || NamesEntry(manifest.entries, name)
  }

  // ---------------------------------------------------------------- round trip

  lemma ReadOne(store: Store, place: Place, dataKey: string, before: seq<Entry>, e: Entry)
    requires ReadAll(store, place, dataKey, before).Ok? && ReadEntry(store, place, dataKey, e).Ok?
    ensures ReadAll(store, place, dataKey, before + [e]) ==
            AddEntry(ReadAll(store, place, dataKey, before).value, e, ReadEntry(store, place, dataKey, e).value)
  {
    hide AddEntry, ReadEntry;
    assert (before + [e])[..|before|] == before;
  }

  /** A reading with one more source, read completely. */
  function WithSource(r: Reading, source: Source, body: Bytes): Reading {
    match source
    case Data => r.(payload := r.payload + body)
    case ObjectAt(artifactId, descriptor) =>
      r.(order := r.order + [artifactId], items := r.items[artifactId := Item(descriptor, body)])
  }

  ghost predicate NewSource(r: Reading, source: Source) {
    source.ObjectAt? ==> source.artifactId != "" && source.artifactId !in r.items
  }

  lemma AddFirst(r: Reading, id: Id, dataKey: string, source: Source, plain: Bytes)
    requires NewSource(r, source)
    ensures AddEntry(r, EntryOf(id, dataKey, source, 0, plain), plain) == Ok(WithSource(r, source, plain))
  {
  }

  lemma AddMore(r: Reading, id: Id, dataKey: string, source: Source, body: Bytes, index: nat, plain: Bytes)
    requires NewSource(r, source)
    ensures AddEntry(WithSource(r, source, body), EntryOf(id, dataKey, source, index, plain), plain) ==
            Ok(WithSource(r, source, body + plain))
  {
    if source.ObjectAt? {
      var first, both := Item(source.descriptor, body), Item(source.descriptor, body + plain);
      assert r.items[source.artifactId := first][source.artifactId := both] == r.items[source.artifactId := both];
    } else {
      assert r.payload + body + plain == r.payload + (body + plain);
    }
  }

  lemma StoredEntryReads(store: Store, place: Place, id: Id, dataKey: string, source: Source, index: nat, plain: Bytes)
    requires EntryStored(store, place, EntryOf(id, dataKey, source, index, plain))
    ensures ReadEntry(store, place, dataKey, EntryOf(id, dataKey, source, index, plain)) == Ok(plain)
  {
  }

  lemma {:induction false} ReadChunks(store: Store, place: Place, id: Id, dataKey: string, before: seq<Entry>,
                                      source: Source, chunks: seq<Bytes>)
    requires ReadAll(store, place, dataKey, before).Ok? && chunks != []
    requires NewSource(ReadAll(store, place, dataKey, before).value, source)
    requires EntriesStored(store, place, EntriesOf(id, dataKey, source, chunks))
    ensures ReadAll(store, place, dataKey, before + EntriesOf(id, dataKey, source, chunks)) ==
            Ok(WithSource(ReadAll(store, place, dataKey, before).value, source, Concat(chunks)))
    decreases |chunks|
  {
    hide EntryOf, AddEntry, ReadEntry, EntryStored, ReadAll, WithSource, NewSource;
    var n, r := |chunks| - 1, ReadAll(store, place, dataKey, before).value;
    var all, some := EntriesOf(id, dataKey, source, chunks), EntriesOf(id, dataKey, source, chunks[..n]);
    var last := EntryOf(id, dataKey, source, n, chunks[n]);
    assert all == some + [last] && before + all == (before + some) + [last];
    assert last in all && forall e :: e in some ==> e in all;
    StoredEntryReads(store, place, id, dataKey, source, n, chunks[n]);
    if n == 0 {
      assert before + some == before;
      assert Concat(chunks) == chunks[0] by { assert Concat(chunks[..0]) == []; }
      AddFirst(r, id, dataKey, source, chunks[0]);
    } else {
      ReadChunks(store, place, id, dataKey, before, source, chunks[..n]);
      AddMore(r, id, dataKey, source, Concat(chunks[..n]), n, chunks[n]);
    }
    ReadOne(store, place, dataKey, before + some, last);
  }

  /** The reading of a whole backup: the data, and the objects numbered in order. */
  ghost function ItemsRead(payload: Bytes, items: seq<Item>): Reading {
    if items == [] then Reading(payload, [], map[])
    else WithSource(ItemsRead(payload, items[..|items| - 1]), SourceOf(items, |items| - 1), items[|items| - 1].body)
  }

  lemma {:induction false} ItemsReadFacts(payload: Bytes, items: seq<Item>)
    ensures var r := ItemsRead(payload, items);
            && r.payload == payload && |r.order| == |items|
            && (forall i :: 0 <= i < |items| ==>
                r.order[i] == ArtifactAt(i) && r.order[i] in r.items && r.items[r.order[i]] == items[i])
            && (forall a :: a in r.items ==> a in r.order)
    decreases |items|
  {
    hide ArtifactAt;
    if items != [] {
      var n := |items| - 1;
      ItemsReadFacts(payload, items[..n]);
      var r, r' := ItemsRead(payload, items[..n]), ItemsRead(payload, items);
      assert r'.order == r.order + [ArtifactAt(n)] && r'.items == r.items[ArtifactAt(n) := items[n]];
      hide ItemsRead;
      forall i | 0 <= i < n
        ensures r'.order[i] == ArtifactAt(i) && r'.order[i] in r'.items && r'.items[r'.order[i]] == items[i] {
        ArtifactsAreDistinct(i, n);
        assert r.order[i] == ArtifactAt(i) && items[..n][i] == items[i];
      }
      assert r'.order[n] == ArtifactAt(n);
      assert forall a :: a in r.order ==> a in r'.order;
    }
  }

  lemma ItemsReadInOrder(payload: Bytes, items: seq<Item>)
    ensures ItemsRead(payload, items).payload == payload && Ordered(ItemsRead(payload, items))
            && Items(ItemsRead(payload, items)) == items
  {
    hide ArtifactAt, ItemsRead;
    ItemsReadFacts(payload, items);
    var r := ItemsRead(payload, items);
    forall i, j | 0 <= i < j < |r.order| ensures r.order[i] != r.order[j] {
      ArtifactsAreDistinct(i, j);
    }
    assert Items(r) == items;
  }

  lemma ReadData(store: Store, place: Place, id: Id, dataKey: string, payload: Bytes, chunkBytes: nat)
    requires chunkBytes > 0 && EntriesStored(store, place, EntriesOf(id, dataKey, Data, Chunks(payload, chunkBytes)))
    ensures ReadAll(store, place, dataKey, EntriesOf(id, dataKey, Data, Chunks(payload, chunkBytes))) ==
            Ok(Reading(payload, [], map[]))
  {
    hide AddEntry, EntryOf, EntryStored, Chunks;
    var entries := EntriesOf(id, dataKey, Data, Chunks(payload, chunkBytes));
    ChunksJoin(payload, chunkBytes);
    assert [] + entries == entries && [] + payload == payload;
    ReadChunks(store, place, id, dataKey, [], Data, Chunks(payload, chunkBytes));
  }

  lemma {:induction false} ReadItems(store: Store, place: Place, id: Id, dataKey: string, payload: Bytes,
                                     items: seq<Item>, chunkBytes: nat)
    requires chunkBytes > 0 && EntriesStored(store, place, AllEntries(id, dataKey, payload, items, chunkBytes))
    ensures ReadAll(store, place, dataKey, AllEntries(id, dataKey, payload, items, chunkBytes)) ==
            Ok(ItemsRead(payload, items))
    decreases |items|
  {
    hide ReadAll, EntriesOf, EntriesStored, WithSource, NewSource, Chunks;
    if items == [] {
      ReadData(store, place, id, dataKey, payload, chunkBytes);
    } else {
      var n := |items| - 1;
      var before, source, chunks := AllEntries(id, dataKey, payload, items[..n], chunkBytes), SourceOf(items, n),
        Chunks(items[n].body, chunkBytes);
      StoredJoin(store, place, before, EntriesOf(id, dataKey, source, chunks));
      ReadItems(store, place, id, dataKey, payload, items[..n], chunkBytes);
      NextIsNew(payload, items[..n], items[n].descriptor);
      ChunksJoin(items[n].body, chunkBytes);
      ReadChunks(store, place, id, dataKey, before, source, chunks);
    }
  }

  lemma StoredJoin(store: Store, place: Place, first: seq<Entry>, second: seq<Entry>)
    ensures EntriesStored(store, place, first + second) <==>
              EntriesStored(store, place, first) && EntriesStored(store, place, second)
  {
    hide EntryStored;
    assert forall e :: e in first + second <==> e in first || e in second;
  }

  lemma NextIsNew(payload: Bytes, items: seq<Item>, descriptor: Descriptor)
    ensures NewSource(ItemsRead(payload, items), ObjectAt(ArtifactAt(|items|), descriptor))
  {
    hide ArtifactAt, ItemsRead;
    ItemsReadFacts(payload, items);
    var r := ItemsRead(payload, items);
    forall i | 0 <= i < |r.order| ensures r.order[i] != ArtifactAt(|items|) {
      ArtifactsAreDistinct(i, |items|);
    }
  }

  /**
    The round trip: whatever the data, the objects (empty ones included) and the chunk size, a place
    that holds what a backup writes verifies, and gives back exactly the data and the objects in order.
   */
  lemma RoundTrip(env: Env, store: Store, place: Place, id: Id, dataKey: string, createdAt: nat, payload: Bytes,
                  items: seq<Item>, chunkBytes: nat, expected: Option<SealedManifest>)
    requires chunkBytes > 0 && env.isJson(payload)
    requires var manifest := ManifestOf(env, id, dataKey, createdAt, payload, items, chunkBytes);
             && EntriesStored(store, place, manifest.entries)
             && Key(place, MANIFEST) in store
                && store[Key(place, MANIFEST)] == ManifestFile(RecordOf(env, dataKey, manifest))
             && (expected.None? || expected.value == RecordOf(env, dataKey, manifest).digest)
    ensures var manifest := ManifestOf(env, id, dataKey, createdAt, payload, items, chunkBytes);
            VerifyAt(env, store, place, id, expected) ==
            if CheckItems(items).Some? then Err(CheckItems(items).value)
            else if !env.validates(payload, items) then Err(SnapshotRejected)
            else Ok(Contents(manifest, payload, items))
  {
    hide AllEntries, ReadAll, EntriesStored;
    ReadItems(store, place, id, dataKey, payload, items, chunkBytes);
    ItemsReadInOrder(payload, items);
  }

  // ---------------------------------------------------------------- names never collide

  /** The entries so far leave the names of a source free. */
  ghost predicate Apart(entries: seq<Entry>, source: Source) {
    forall e, j: nat :: e in entries ==> e.path != PathOf(source, j)
  }

  lemma PathsSortAfterMarker(source: Source, index: nat)
    ensures Less(MARKER, PathOf(source, index)) && PathOf(source, index) != MANIFEST && PathOf(source, index) != MARKER
  {
    KeysSortAfterMarker(index + 1, if source.Data? then "" else source.artifactId);
    LessIrreflexive(MARKER);
  }

  lemma PathsAreDistinct(source: Source, i: nat, source': Source, j: nat)
    requires source.ObjectAt? ==> exists n :: source.artifactId == ArtifactId(n)
    requires source'.ObjectAt? ==> exists n :: source'.artifactId == ArtifactId(n)
    ensures PathOf(source, i) == PathOf(source', j) ==>
              i == j && source.Data? == source'.Data? && (source.ObjectAt? ==> source.artifactId == source'.artifactId)
  {
    if source.Data? && source'.Data? {
      ChunkKeysAreDistinct(i + 1, j + 1);
    } else if source.ObjectAt? && source'.ObjectAt? {
      ObjectKeysAreDistinct(source.artifactId, i + 1, source'.artifactId, j + 1);
    } else {
      assert PathOf(source, i)[0] != PathOf(source', j)[0];
    }
  }

  /** The entries of the data and the first objects leave the names of the next object free. */
  lemma {:induction false} NextSourceIsApart(id: Id, dataKey: string, payload: Bytes, items: seq<Item>, chunkBytes: nat,
                                             next: nat, descriptor: Descriptor)
    requires chunkBytes > 0 && |items| <= next
    ensures Apart(AllEntries(id, dataKey, payload, items, chunkBytes), ObjectAt(ArtifactAt(next), descriptor))
    ensures SortedAfterMarker(AllEntries(id, dataKey, payload, items, chunkBytes))
    decreases |items|
  {
    hide PathOf;
    var source := if items == [] then Data else SourceOf(items, |items| - 1);
    if items != [] {
      NextSourceIsApart(id, dataKey, payload, items[..|items| - 1], chunkBytes, next, descriptor);
      ArtifactIdsAreDistinct(|items|, next + 1);
    }
    forall i: nat, j: nat ensures PathOf(source, i) != PathOf(ObjectAt(ArtifactAt(next), descriptor), j) {
      PathsAreDistinct(source, i, ObjectAt(ArtifactAt(next), descriptor), j);
    }
    forall i: nat ensures Less(MARKER, PathOf(source, i)) {
      PathsSortAfterMarker(source, i);
    }
    hide Less, SealEnvelope;
  }

  lemma {:induction false} NoEntryIsManifest(id: Id, dataKey: string, payload: Bytes, items: seq<Item>, chunkBytes: nat)
    requires chunkBytes > 0
    ensures forall e :: e in AllEntries(id, dataKey, payload, items, chunkBytes) ==> e.path != MANIFEST
    decreases |items|
  {
    hide PathOf, Chunks;
    var source := if items == [] then Data else SourceOf(items, |items| - 1);
    if items != [] {
      NoEntryIsManifest(id, dataKey, payload, items[..|items| - 1], chunkBytes);
    }
    forall i: nat ensures PathOf(source, i) != MANIFEST {
      PathsSortAfterMarker(source, i);
    }
  }
}
