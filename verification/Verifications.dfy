/**
  What it means that a backup point verifies, spelled out file by file, and what is read out of it.
 */
module Verifications {
  import opened BackupPoints
  import opened PointFiles
  import opened Streams
  import opened Wrappers

  /**
    One chunk is in order: it is of a known kind, the stored ciphertext is the one recorded, it was sealed
    with the key of the point for its own place, and it opens to what is recorded; a chunk of an object
    names its object.
   */
  predicate ChunkVerifies(store: Store, place: Place, dataKey: string, e: Entry) {
    && (e.kind == Logical || (e.kind == Object && e.artifactId != "" && e.descriptor != None))
    && Key(place, e.path) in store && store[Key(place, e.path)] == Chunk(e.envelope.digest)
    && e.envelope.digest.key == dataKey && e.envelope.digest.aad == e.aad
    && e.envelope.plainBytes == |e.envelope.digest.plain| && e.envelope.plainDigest == e.envelope.digest.plain
  }

  predicate SameDescriptors(entries: seq<Entry>) {
    forall e, f ::
             e in entries && f in entries && e.kind == Object && f.kind == Object && e.artifactId == f.artifactId ==>
                     e.descriptor == f.descriptor
  }

  /** The logical data: its chunks in order. */
  function LogicalBytes(entries: seq<Entry>): Bytes {
    if entries == [] then []
    else
      var e := entries[|entries| - 1];
      LogicalBytes(entries[..|entries| - 1]) + if e.kind == Logical then e.envelope.digest.plain else []
  }

  /** An object: its chunks in order. */
  function ObjectBytes(entries: seq<Entry>, artifactId: string): Bytes {
    if entries == [] then []
    else
      var e := entries[|entries| - 1];
      ObjectBytes(entries[..|entries| - 1], artifactId) +
      if e.kind == Object && e.artifactId == artifactId then e.envelope.digest.plain else []
  }

  /** The objects in order of their first chunks. */
  function Artifacts(entries: seq<Entry>): seq<string> {
    if entries == [] then []
    else
      var e, rest := entries[|entries| - 1], Artifacts(entries[..|entries| - 1]);
      if e.kind == Object && e.artifactId !in rest then rest + [e.artifactId] else rest
  }

  function DescriptorFor(entries: seq<Entry>, artifactId: string): Option<Descriptor> {
    if entries == [] then None
    else
      var e := entries[|entries| - 1];
      if e.kind == Object && e.artifactId == artifactId then e.descriptor
      else DescriptorFor(entries[..|entries| - 1], artifactId)
  }

  /** What has been read agrees with the chunks read so far. */
  ghost predicate ReadRight(r: Reading, entries: seq<Entry>) {
    && r.payload == LogicalBytes(entries) && r.order == Artifacts(entries)
    && (forall a :: a in r.items <==> a in r.order)
    && (forall a :: a in r.items ==>
          r.items[a].body == ObjectBytes(entries, a) && DescriptorFor(entries, a) == Some(r.items[a].descriptor))
  }

  lemma {:induction false} ArtifactsFacts(entries: seq<Entry>, a: string)
    ensures a in Artifacts(entries) <==> exists e :: e in entries && e.kind == Object && e.artifactId == a
    ensures a !in Artifacts(entries) ==> ObjectBytes(entries, a) == []
    ensures DescriptorFor(entries, a).Some? ==> a in Artifacts(entries)
    ensures a in Artifacts(entries) ==>
              exists e ::
                  e in entries && e.kind == Object && e.artifactId == a && DescriptorFor(entries, a) == e.descriptor
    decreases |entries|
  {
    if entries != [] {
      var rest, last := entries[..|entries| - 1], entries[|entries| - 1];
      ArtifactsFacts(rest, a);
      assert entries == rest + [last];
      assert last in entries;
    }
  }

  lemma OpensChunk(store: Store, place: Place, dataKey: string, e: Entry)
    ensures ReadEntry(store, place, dataKey, e).Ok? <==>
            && e.kind != Unknown && Key(place, e.path) in store && store[Key(place, e.path)] == Chunk(e.envelope.digest)
            && e.envelope.digest.key == dataKey && e.envelope.digest.aad == e.aad
            && e.envelope.plainBytes == |e.envelope.digest.plain| && e.envelope.plainDigest == e.envelope.digest.plain
    ensures ReadEntry(store, place, dataKey, e).Ok? ==>
              ReadEntry(store, place, dataKey, e).value == e.envelope.digest.plain
  {
  }

  lemma OneMore(entries: seq<Entry>, e: Entry, a: string)
    ensures LogicalBytes(entries + [e]) == LogicalBytes(entries) + if e.kind == Logical then e.envelope.digest.plain
            else []
    ensures ObjectBytes(entries + [e], a) ==
            ObjectBytes(entries, a) + if e.kind == Object && e.artifactId == a then e.envelope.digest.plain else []
    ensures Artifacts(entries + [e]) ==
            if e.kind == Object && e.artifactId !in Artifacts(entries) then Artifacts(entries) + [e.artifactId]
               else Artifacts(entries)
    ensures DescriptorFor(entries + [e], a) ==
            if e.kind == Object && e.artifactId == a then e.descriptor else DescriptorFor(entries, a)
  {
    assert (entries + [e])[..|entries|] == entries;
  }

  /** One more chunk, once it has been opened. */
  lemma AddsExactly(entries: seq<Entry>, e: Entry, r: Reading)
    requires ReadRight(r, entries) && SameDescriptors(entries) && e.kind != Unknown
    ensures var more := AddEntry(r, e, e.envelope.digest.plain);
            && (more.Ok? <==>
                (e.kind == Object ==> e.artifactId != "" && e.descriptor != None) && SameDescriptors(entries + [e]))
            && (more.Ok? ==> ReadRight(more.value, entries + [e]))
  {
    hide SameDescriptors, LogicalBytes, ObjectBytes, Artifacts, DescriptorFor;
    ArtifactsFacts(entries, e.artifactId);
    SameNext(entries, e);
    OneMore(entries, e, e.artifactId);
    var more := AddEntry(r, e, e.envelope.digest.plain);
    if more.Ok? {
      forall a | a in more.value.items
        ensures more.value.items[a].body == ObjectBytes(entries + [e], a)
        ensures DescriptorFor(entries + [e], a) == Some(more.value.items[a].descriptor)
      {
        OneMore(entries, e, a);
      }
    }
  }

  lemma ChunkReads(store: Store, place: Place, dataKey: string, entries: seq<Entry>, e: Entry, r: Reading)
    requires ReadRight(r, entries) && SameDescriptors(entries)
    ensures var plain := ReadEntry(store, place, dataKey, e);
            && (plain.Ok? && AddEntry(r, e, plain.value).Ok? <==>
                ChunkVerifies(store, place, dataKey, e) && SameDescriptors(entries + [e]))
            && (plain.Ok? && AddEntry(r, e, plain.value).Ok? ==>
                  ReadRight(AddEntry(r, e, plain.value).value, entries + [e]))
  {
    OpensChunk(store, place, dataKey, e);
    if e.kind != Unknown {
      AddsExactly(entries, e, r);
    }
    hide ReadEntry, AddEntry, SameDescriptors, ReadRight;
  }

  /** A chunk keeps the descriptors consistent when it is the first of its object, or has the same one. */
  lemma SameNext(entries: seq<Entry>, e: Entry)
    requires SameDescriptors(entries)
    ensures SameDescriptors(entries + [e]) <==>
            (e.kind == Object && e.artifactId in Artifacts(entries) ==>
             DescriptorFor(entries, e.artifactId) == e.descriptor)
  {
    ArtifactsFacts(entries, e.artifactId);
    var all := entries + [e];
    forall f ensures f in all <==> f in entries || f == e {}
    if e.kind == Object && e.artifactId in Artifacts(entries) {
      var f :| f in entries && f.kind == Object && f.artifactId == e.artifactId
               && DescriptorFor(entries, e.artifactId) == f.descriptor;
      assert f in all && e in all;
    }
    hide Artifacts, DescriptorFor;
  }

  /** Reading succeeds exactly when every chunk verifies and no object has two descriptors. */
  lemma {:induction false} ReadsExactly(store: Store, place: Place, dataKey: string, entries: seq<Entry>)
    ensures ReadAll(store, place, dataKey, entries).Ok? <==>
            (forall e :: e in entries ==> ChunkVerifies(store, place, dataKey, e)) && SameDescriptors(entries)
    ensures ReadAll(store, place, dataKey, entries).Ok? ==>
              ReadRight(ReadAll(store, place, dataKey, entries).value, entries)
    decreases |entries|
  {
    hide ReadEntry, AddEntry, ChunkVerifies, SameDescriptors, ReadRight;
    if entries == [] {
      NothingRead();
    } else {
      var rest, last := entries[..|entries| - 1], entries[|entries| - 1];
      ReadsExactly(store, place, dataKey, rest);
      assert entries == rest + [last] && last in entries;
      forall e ensures e in entries <==> e in rest || e == last {}
      var r := ReadAll(store, place, dataKey, rest);
      if r.Ok? {
        ChunkReads(store, place, dataKey, rest, last, r.value);
      } else {
        FewerSame(rest, last);
      }
    }
  }

  lemma NothingRead()
    ensures SameDescriptors([]) && ReadRight(Reading([], [], map[]), [])
  {
  }

  lemma FewerSame(entries: seq<Entry>, e: Entry)
    ensures SameDescriptors(entries + [e]) ==> SameDescriptors(entries)
  {
    forall f | f in entries ensures f in entries + [e] {}
  }

  // ---------------------------------------------------------------- the whole point

  /** The objects as they are read: each with its descriptor and its bytes, in order of their first chunks. */
  ghost function Objects(entries: seq<Entry>): seq<Item> {
    seq(|Artifacts(entries)|, i requires 0 <= i < |Artifacts(entries)| =>
      Item(DescriptorFor(entries, Artifacts(entries)[i]).GetOr(Descriptor("", None, None)),
           ObjectBytes(entries, Artifacts(entries)[i])))
  }

  lemma {:induction false} ChecksExactly(items: seq<Item>)
    ensures CheckItems(items).None? <==>
            forall item :: item in items ==>
              && (item.descriptor.bytes == None || item.descriptor.bytes == Some(|item.body|))
              && (item.descriptor.digest == None || item.descriptor.digest == Some(item.body))
  {
    if items != [] {
      ChecksExactly(items[1..]);
      assert items[0] in items && items == [items[0]] + items[1..];
    }
  }

  /**
    A place verifies to some contents exactly when all of this holds. There is a manifest; if a digest is
    expected it has that digest; it is the one its own digest names, sealed for this point with the key that
    the master key wraps, in a known format, under this identifier, and names the key it is under. Every
    chunk it lists verifies, and no object has two descriptors. The data is its chunks in order and is JSON;
    the objects are their chunks in order, each as long and with the digest its descriptor says, if it says
    so, together as many and as long as the manifest says; and the backed-up system takes both.
   */
  lemma VerifiesExactly(env: Env, store: Store, place: Place, id: Id, expected: Option<SealedManifest>,
                        contents: Contents)
    ensures VerifyAt(env, store, place, id, expected) == Ok(contents) <==>
            var m, items := contents.manifest, contents.items;
            && Key(place, "manifest.enc.json") in store && store[Key(place, "manifest.enc.json")].ManifestFile?
            && var record := store[Key(place, "manifest.enc.json")].record;
               && (expected == None || expected == Some(record.digest)) && record.digest == record.sealed
               && record.wrapped == Some(WrappedKey(env.master, m.keyId, record.sealed.key))
               && record.sealed.aad == id + ":manifest" && record.sealed.manifest == Some(m) && m.manifestId == id
               && (forall e :: e in m.entries ==> ChunkVerifies(store, place, record.sealed.key, e))
               && SameDescriptors(m.entries)
               && contents.payload == LogicalBytes(m.entries) && env.isJson(contents.payload)
               && items == Objects(m.entries)
               && (forall item :: item in items ==>
                     && (item.descriptor.bytes == None || item.descriptor.bytes == Some(|item.body|))
                     && (item.descriptor.digest == None || item.descriptor.digest == Some(item.body)))
               && |items| == m.objectCount && TotalBytes(items) == m.objectBytes
                  && env.validates(contents.payload, items)
  {
    OpensExactly(env, store, place, id, expected, contents.manifest);
    ChecksExactly(Objects(contents.manifest.entries));
    hide OpenManifest, ReadAll, CheckItems, ChunkVerifies, SameDescriptors, Objects, LogicalBytes, Conclude, VerifyAt;
    if Key(place, MANIFEST) in store && store[Key(place, MANIFEST)].ManifestFile? {
      var dataKey := store[Key(place, MANIFEST)].record.sealed.key;
      ReadsExactly(store, place, dataKey, contents.manifest.entries);
      ConcludesExactly(env, store, place, id, expected, contents, dataKey);
    } else {
      NothingOpens(env, store, place, id, expected);
    }
  }

  lemma NothingOpens(env: Env, store: Store, place: Place, id: Id, expected: Option<SealedManifest>)
    requires !(Key(place, MANIFEST) in store && store[Key(place, MANIFEST)].ManifestFile?)
    ensures VerifyAt(env, store, place, id, expected).Err?
  {
  }

  lemma OpensExactly(env: Env, store: Store, place: Place, id: Id, expected: Option<SealedManifest>, m: Manifest)
    ensures (exists dataKey :: OpenManifest(env, store, place, id, expected) == Ok((m, dataKey))) <==>
            && Key(place, MANIFEST) in store && store[Key(place, MANIFEST)].ManifestFile?
            && var record := store[Key(place, MANIFEST)].record;
               && (expected == None || expected == Some(record.digest)) && record.digest == record.sealed
               && record.wrapped == Some(WrappedKey(env.master, m.keyId, record.sealed.key))
               && record.sealed.aad == id + ":manifest" && record.sealed.manifest == Some(m) && m.manifestId == id
    ensures OpenManifest(env, store, place, id, expected).Ok? ==>
              OpenManifest(env, store, place, id, expected).value.1 == store[Key(place, MANIFEST)].record.sealed.key
  {
    if && Key(place, MANIFEST) in store && store[Key(place, MANIFEST)].ManifestFile?
       && var record := store[Key(place, MANIFEST)].record;
          && (expected == None || expected == Some(record.digest)) && record.digest == record.sealed
          && record.wrapped == Some(WrappedKey(env.master, m.keyId, record.sealed.key))
          && record.sealed.aad == id + ":manifest" && record.sealed.manifest == Some(m) && m.manifestId == id
    {
      assert OpenManifest(env, store, place, id, expected) == Ok((m, store[Key(place, MANIFEST)].record.sealed.key));
    }
  }

  lemma ItemsAreObjects(r: Reading, entries: seq<Entry>)
    requires ReadRight(r, entries) && Ordered(r)
    ensures Items(r) == Objects(entries)
  {
    hide LogicalBytes, ObjectBytes, Artifacts, DescriptorFor;
  }

  lemma ConcludesExactly(env: Env, store: Store, place: Place, id: Id, expected: Option<SealedManifest>,
                         contents: Contents, dataKey: string)
    requires var r := ReadAll(store, place, dataKey, contents.manifest.entries); r.Ok? ==>
        ReadRight(r.value, contents.manifest.entries)
    requires OpenManifest(env, store, place, id, expected).Ok? ==>
               OpenManifest(env, store, place, id, expected).value.1 == dataKey
    ensures VerifyAt(env, store, place, id, expected) == Ok(contents) <==>
            var m, items := contents.manifest, contents.items;
            && OpenManifest(env, store, place, id, expected) == Ok((m, dataKey))
            && ReadAll(store, place, dataKey, m.entries).Ok?
            && contents.payload == LogicalBytes(m.entries) && env.isJson(contents.payload)
               && items == Objects(m.entries)
            && CheckItems(Objects(m.entries)).None?
            && |items| == m.objectCount && TotalBytes(items) == m.objectBytes && env.validates(contents.payload, items)
  {
    ReadAllOrders(store, place, dataKey, contents.manifest.entries);
    var r := ReadAll(store, place, dataKey, contents.manifest.entries);
    hide OpenManifest, ReadAll, CheckItems, Objects, LogicalBytes, Items, ObjectBytes, Artifacts, DescriptorFor,
         Ordered;
    if r.Ok? {
      ItemsAreObjects(r.value, contents.manifest.entries);
    }
  }

  /** A point verifies exactly when its marker is whole and names it, and its files verify under the marker's digest. */
  lemma PointsExactly(env: Env, store: Store, id: Id, contents: Contents)
    ensures Verify(env, store, id) == Ok(contents) <==>
            && Key(Point(id), "COMMITTED.json") in store && store[Key(Point(id), "COMMITTED.json")].MarkerFile?
            && store[Key(Point(id), "COMMITTED.json")].marker.manifestId == id
            && VerifyAt(env, store, Point(id), id,
                        store[Key(Point(id), "COMMITTED.json")].marker.digest) == Ok(contents)
  {
    hide VerifyAt;
  }
}
