/**
  A point that is exported as a package and imported again. A chunk is exported as its ciphertext,
  which is as long as its plaintext; manifest and marker are exported as their text.
 */
module PointExports {
  import opened BackupPoints
  import opened CodeUnits
  import E = ExportPackages
  import opened Permutations
  import opened PointFiles
  import opened Streams
  import opened Wrappers

  /** The stored bytes of a file. */
  type Encoding = File -> Bytes

  ghost predicate Lawful(encode: Encoding, markerOf: E.MarkerParser) {
    && (forall c :: |encode(Chunk(c))| == |c.plain|)
    && (forall r :: encode(ManifestFile(r)) != [])
    && (forall m ::
        encode(MarkerFile(m)) != [] && (m.digest.Some? ==> markerOf(encode(MarkerFile(m))) == Some(m.manifestId)))
  }

  /** An empty body is exported as an empty text, which an import does not take for a body. */
  function RawFileOf(encode: Encoding, name: string, file: File): E.RawFile {
    E.RawFile(name, if encode(file) == [] then None else Some(encode(file)))
  }

  /** The package that an export of the point gives, with its files in the order of the listing. */
  function Exported(encode: Encoding, store: Store, id: Id, names: seq<string>): E.RawPackage
    requires forall i :: 0 <= i < |names| ==> Key(Point(id), names[i]) in store
  {
    E.RawPackage(E.FORMAT, id,
                 seq(|names|,
                     i requires 0 <= i < |names| => RawFileOf(encode, names[i], store[Key(Point(id), names[i])])))
  }

  ghost predicate ListsPoint(store: Store, id: Id, names: seq<string>) {
    Distinct(names) && forall name :: name in names <==> Key(Point(id), name) in store
  }

  // ---------------------------------------------------------------- what the chunks amount to

  /** The plaintext of an entry. */
  function PlainOf(e: Entry): Bytes {
    e.envelope.digest.plain
  }

  function PlainBytes(entries: seq<Entry>): nat {
    if entries == [] then 0 else PlainBytes(entries[..|entries| - 1]) + |PlainOf(entries[|entries| - 1])|
  }

  ghost predicate NoneEmpty(entries: seq<Entry>) {
    forall e :: e in entries ==> PlainOf(e) != []
  }

  ghost predicate AllWithin(entries: seq<Entry>, maximum: int) {
    forall e :: e in entries ==> |PlainOf(e)| <= maximum
  }

  /** The longest chunk of a body is within a bound. */
  predicate ChunksFit(body: Bytes, chunkBytes: nat, maximum: int) {
    |body| <= maximum || chunkBytes <= maximum
  }

  lemma {:induction false} ChunkSizes(body: Bytes, size: nat, maximum: int)
    requires size > 0
    ensures (forall c :: c in Chunks(body, size) ==> c != []) <==> body != []
    ensures (forall c :: c in Chunks(body, size) ==> |c| <= maximum) <==> ChunksFit(body, size, maximum)
    decreases |body|
  {
    var chunks := Chunks(body, size);
    assert chunks[0] in chunks;
    if |body| > size {
      var rest := Chunks(body[size..], size);
      ChunkSizes(body[size..], size, maximum);
      assert chunks == [body[..size]] + rest;
      assert forall c :: c in chunks <==> c == body[..size] || c in rest;
    }
  }

  lemma {:induction false} PlainBytesJoin(first: seq<Entry>, second: seq<Entry>)
    ensures PlainBytes(first + second) == PlainBytes(first) + PlainBytes(second)
    decreases |second|
  {
    if second == [] {
      assert first + second == first;
    } else {
      var n := |second| - 1;
      PlainBytesJoin(first, second[..n]);
      assert (first + second)[..|first| + n] == first + second[..n];
    }
  }

  lemma {:induction false} PlainBytesOfChunks(id: Id, dataKey: string, source: Source, chunks: seq<Bytes>)
    ensures PlainBytes(EntriesOf(id, dataKey, source, chunks)) == |Concat(chunks)|
    decreases |chunks|
  {
    if chunks != [] {
      var n := |chunks| - 1;
      PlainBytesOfChunks(id, dataKey, source, chunks[..n]);
      assert EntriesOf(id, dataKey, source, chunks)[..n] == EntriesOf(id, dataKey, source, chunks[..n]);
    }
  }

  /** The chunks of one body: how long they are, together and each. */
  lemma SourceFacts(id: Id, dataKey: string, source: Source, body: Bytes, chunkBytes: nat, maximum: int)
    requires chunkBytes > 0
    ensures var entries := EntriesOf(id, dataKey, source, Chunks(body, chunkBytes));
            && entries != [] && PlainBytes(entries) == |body|
            && (NoneEmpty(entries) <==> body != [])
            && (AllWithin(entries, maximum) <==> ChunksFit(body, chunkBytes, maximum))
  {
    var chunks := Chunks(body, chunkBytes);
    var entries := EntriesOf(id, dataKey, source, chunks);
    ChunksJoin(body, chunkBytes);
    ChunkSizes(body, chunkBytes, maximum);
    PlainBytesOfChunks(id, dataKey, source, chunks);
    hide Chunks, Concat, PlainBytes, EntryOf;
    PlainsOfChunks(id, dataKey, source, chunks);
    hide PlainOf, EntriesOf;
    if NoneEmpty(entries) {
      forall c | c in chunks ensures c != [] {
        var e :| e in entries && PlainOf(e) == c;
      }
    }
    if AllWithin(entries, maximum) {
      forall c | c in chunks ensures |c| <= maximum {
        var e :| e in entries && PlainOf(e) == c;
      }
    }
  }

  /** The plaintexts of the entries are the chunks. */
  lemma PlainsOfChunks(id: Id, dataKey: string, source: Source, chunks: seq<Bytes>)
    ensures var entries := EntriesOf(id, dataKey, source, chunks);
            && |entries| == |chunks|
            && (forall e :: e in entries ==> PlainOf(e) in chunks)
            && (forall c :: c in chunks ==> exists e :: e in entries && PlainOf(e) == c)
  {
    var entries := EntriesOf(id, dataKey, source, chunks);
    forall i | 0 <= i < |chunks|
      ensures PlainOf(entries[i]) == chunks[i] && entries[i] in entries && chunks[i] in chunks {}
    hide PlainOf, EntriesOf;
    forall e | e in entries ensures PlainOf(e) in chunks {
      var i :| 0 <= i < |entries| && entries[i] == e;
    }
    forall c | c in chunks ensures exists e :: e in entries && PlainOf(e) == c {
      var i :| 0 <= i < |chunks| && chunks[i] == c;
      assert PlainOf(entries[i]) == c;
    }
  }

  predicate NoEmptyBody(payload: Bytes, items: seq<Item>) {
    payload != [] && forall i :: 0 <= i < |items| ==> items[i].body != []
  }

  predicate BodiesFit(payload: Bytes, items: seq<Item>, chunkBytes: nat, maximum: int) {
    ChunksFit(payload, chunkBytes, maximum)
      && forall i :: 0 <= i < |items| ==> ChunksFit(items[i].body, chunkBytes, maximum)
  }

  lemma BothParts(first: seq<Entry>, second: seq<Entry>, maximum: int)
    ensures NoneEmpty(first + second) <==> NoneEmpty(first) && NoneEmpty(second)
    ensures AllWithin(first + second, maximum) <==> AllWithin(first, maximum) && AllWithin(second, maximum)
  {
    assert forall e :: e in first + second <==> e in first || e in second;
  }

  /** The chunks of a whole backup, in terms of what was backed up. */
  lemma {:induction false} AllEntriesFacts(id: Id, dataKey: string, payload: Bytes, items: seq<Item>, chunkBytes: nat,
                                           maximum: int)
    requires chunkBytes > 0
    ensures var entries := AllEntries(id, dataKey, payload, items, chunkBytes);
            && |items| < |entries| && PlainBytes(entries) == |payload| + TotalBytes(items)
            && (NoneEmpty(entries) <==> NoEmptyBody(payload, items))
            && (AllWithin(entries, maximum) <==> BodiesFit(payload, items, chunkBytes, maximum))
    decreases |items|
  {
    hide EntriesOf, Chunks, NoneEmpty, AllWithin, ChunksFit, PlainBytes, SourceOf;
    if items == [] {
      SourceFacts(id, dataKey, Data, payload, chunkBytes, maximum);
    } else {
      var n := |items| - 1;
      var before, entries := AllEntries(id, dataKey, payload, items[..n], chunkBytes),
        EntriesOf(id, dataKey, SourceOf(items, n), Chunks(items[n].body, chunkBytes));
      AllEntriesFacts(id, dataKey, payload, items[..n], chunkBytes, maximum);
      SourceFacts(id, dataKey, SourceOf(items, n), items[n].body, chunkBytes, maximum);
      PlainBytesJoin(before, entries);
      BothParts(before, entries, maximum);
      BodiesNext(payload, items, chunkBytes, maximum);
      hide NoEmptyBody, BodiesFit;
    }
  }

  lemma BodiesNext(payload: Bytes, items: seq<Item>, chunkBytes: nat, maximum: int)
    requires items != []
    ensures var n := |items| - 1;
            && (NoEmptyBody(payload, items) <==> NoEmptyBody(payload, items[..n]) && items[n].body != [])
            && (BodiesFit(payload, items, chunkBytes, maximum) <==>
                BodiesFit(payload, items[..n], chunkBytes, maximum) && ChunksFit(items[n].body, chunkBytes, maximum))
  {
    hide ChunksFit;
    var n := |items| - 1;
    assert forall i :: 0 <= i < n ==> items[..n][i] == items[i];
  }

  // ---------------------------------------------------------------- the names of the chunks

  function PathsOf(entries: seq<Entry>): seq<string> {
    seq(|entries|, i requires 0 <= i < |entries| => entries[i].path)
  }

  lemma PathsOfSource(id: Id, dataKey: string, source: Source, number: nat, chunks: seq<Bytes>)
    requires source.ObjectAt? ==> source.artifactId == ArtifactId(number)
    ensures Distinct(PathsOf(EntriesOf(id, dataKey, source, chunks)))
    ensures |chunks| < 1_000_000 && number < 1_000_000 ==>
              forall e :: e in EntriesOf(id, dataKey, source, chunks) ==> IsSafeKey(e.path)
  {
    hide PathOf, IsSafeKey;
    var entries := EntriesOf(id, dataKey, source, chunks);
    forall i, j | 0 <= i < j < |entries| ensures PathsOf(entries)[i] != PathsOf(entries)[j] {
      PathsAreDistinct(source, i, source, j);
    }
    if |chunks| < 1_000_000 && number < 1_000_000 {
      forall i | 0 <= i < |entries| ensures IsSafeKey(entries[i].path) {
        PathIsSafe(source, number, i);
      }
    }
  }

  lemma PathIsSafe(source: Source, number: nat, index: nat)
    requires source.ObjectAt? ==> source.artifactId == ArtifactId(number)
    requires index + 1 < 1_000_000 && number < 1_000_000
    ensures IsSafeKey(PathOf(source, index))
  {
    hide IsSafeKey;
    if source.Data? {
      ChunkKeysAreImportable(index + 1);
    } else {
      ObjectKeysAreImportable(number, index + 1);
    }
  }

  lemma DistinctJoin(first: seq<Entry>, second: seq<Entry>)
    requires Distinct(PathsOf(first)) && Distinct(PathsOf(second))
    requires forall e, f :: e in first && f in second ==> e.path != f.path
    ensures Distinct(PathsOf(first + second))
  {
    var all, a, b := PathsOf(first + second), PathsOf(first), PathsOf(second);
    forall i, j | 0 <= i < j < |all| ensures all[i] != all[j] {
      if j < |first| {
        assert all[i] == a[i] && all[j] == a[j];
      } else if |first| <= i {
        assert all[i] == b[i - |first|] && all[j] == b[j - |first|];
      } else {
        assert first[i] in first && second[j - |first|] in second;
      }
    }
  }

  /** The names of the chunks are distinct, and all safe as long as there are less than a million chunks. */
  lemma {:induction false} AllPaths(id: Id, dataKey: string, payload: Bytes, items: seq<Item>, chunkBytes: nat)
    requires chunkBytes > 0
    ensures var entries := AllEntries(id, dataKey, payload, items, chunkBytes);
            && Distinct(PathsOf(entries))
            && (|entries| < 1_000_000 ==> forall e :: e in entries ==> IsSafeKey(e.path))
    decreases |items|
  {
    hide EntriesOf, Chunks, PathsOf, IsSafeKey;
    if items == [] {
      PathsOfSource(id, dataKey, Data, 0, Chunks(payload, chunkBytes));
      EntryCount(id, dataKey, Data, Chunks(payload, chunkBytes));
    } else {
      var n := |items| - 1;
      var source, chunks := SourceOf(items, n), Chunks(items[n].body, chunkBytes);
      var before, entries := AllEntries(id, dataKey, payload, items[..n], chunkBytes),
        EntriesOf(id, dataKey, source, chunks);
      AllPaths(id, dataKey, payload, items[..n], chunkBytes);
      AllEntriesFacts(id, dataKey, payload, items[..n], chunkBytes, 0);
      PathsOfSource(id, dataKey, source, n + 1, chunks);
      EntryCount(id, dataKey, source, chunks);
      NextSourceIsApart(id, dataKey, payload, items[..n], chunkBytes, n, items[n].descriptor);
      EntryPaths(id, dataKey, source, chunks);
      hide AllEntries, SortedAfterMarker, NoneEmpty, AllWithin, PlainBytes;
      DistinctJoin(before, entries);
    }
  }

  lemma EntryCount(id: Id, dataKey: string, source: Source, chunks: seq<Bytes>)
    ensures |EntriesOf(id, dataKey, source, chunks)| == |chunks|
  {
  }

  lemma EntryPaths(id: Id, dataKey: string, source: Source, chunks: seq<Bytes>)
    ensures forall e :: e in EntriesOf(id, dataKey, source, chunks) ==> exists j: nat :: e.path == PathOf(source, j)
  {
    hide PathOf;
    var entries := EntriesOf(id, dataKey, source, chunks);
    forall e | e in entries ensures exists j: nat :: e.path == PathOf(source, j) {
      var j :| 0 <= j < |entries| && entries[j] == e;
      assert e.path == PathOf(source, j);
    }
  }

  // ---------------------------------------------------------------- the exported package

  function EntryFiles(encode: Encoding, entries: seq<Entry>): seq<E.RawFile> {
    seq(|entries|,
        i requires 0 <= i < |entries| => RawFileOf(encode, entries[i].path, Chunk(entries[i].envelope.digest)))
  }

  /** The files of a point, the marker first, then the chunks in order, then the manifest. */
  function Canonical(encode: Encoding, env: Env, dataKey: string, manifest: Manifest): seq<E.RawFile> {
    [RawFileOf(encode, MARKER, MarkerFile(MarkerOf(env, dataKey, manifest)))]
    + EntryFiles(encode, manifest.entries)
    + [RawFileOf(encode, MANIFEST, ManifestFile(RecordOf(env, dataKey, manifest)))]
  }

  /** No file of the package repeats a key. */
  ghost predicate DistinctFiles(files: seq<E.RawFile>) {
    forall i, j :: 0 <= i < j < |files| ==> files[i].key != files[j].key
  }

  /** The same files, in any order. */
  ghost predicate SameFiles(files: seq<E.RawFile>, others: seq<E.RawFile>) {
    multiset(files) == multiset(others)
  }

  ghost predicate AllFilesOk(files: seq<E.RawFile>, maxFile: int) {
    forall f :: f in files ==> E.FileOk(f, maxFile)
  }

  lemma {:induction false} TotalWithout(files: seq<E.RawFile>, i: nat)
    requires i < |files|
    ensures E.Total(files) == E.Total(Without(files, i)) + |files[i].body.GetOr([])|
    decreases |files|
  {
    var n := |files| - 1;
    if i == n {
      assert Without(files, i) == files[..n];
    } else {
      TotalWithout(files[..n], i);
      assert Without(files, i)[..n - 1] == Without(files[..n], i);
    }
  }

  /** The total does not depend on the order of the files. */
  lemma {:induction false} TotalPermutes(files: seq<E.RawFile>, others: seq<E.RawFile>)
    requires multiset(files) == multiset(others)
    ensures E.Total(files) == E.Total(others)
    decreases |files|
  {
    hide E.Total, Without;
    SameMultiset(files, others);
    if files == [] {
      assert others == [];
    } else {
      assert files[0] in others;
      var k :| 0 <= k < |others| && others[k] == files[0];
      WithoutOne(files, 0);
      WithoutOne(others, k);
      TotalPermutes(Without(files, 0), Without(others, k));
      TotalWithout(files, 0);
      TotalWithout(others, k);
    }
  }

  lemma {:induction false} TotalJoin(first: seq<E.RawFile>, second: seq<E.RawFile>)
    ensures E.Total(first + second) == E.Total(first) + E.Total(second)
    decreases |second|
  {
    if second == [] {
      assert first + second == first;
    } else {
      var n := |second| - 1;
      TotalJoin(first, second[..n]);
      assert (first + second)[..|first| + n] == first + second[..n];
    }
  }

  lemma {:induction false} TotalOfEntries(encode: Encoding, markerOf: E.MarkerParser, entries: seq<Entry>)
    requires Lawful(encode, markerOf)
    ensures E.Total(EntryFiles(encode, entries)) == PlainBytes(entries)
    decreases |entries|
  {
    if entries != [] {
      var n := |entries| - 1;
      TotalOfEntries(encode, markerOf, entries[..n]);
      assert EntryFiles(encode, entries)[..n] == EntryFiles(encode, entries[..n]);
      assert |encode(Chunk(entries[n].envelope.digest))| == |PlainOf(entries[n])|;
    }
  }

  /** The export of a point has the canonical files, in some order. */
  lemma ExportIsCanonical(encode: Encoding, env: Env, store: Store, id: Id, names: seq<string>, dataKey: string,
                          manifest: Manifest)
    requires HoldsPoint(env, store, id, dataKey, manifest) && ListsPoint(store, id, names)
    requires Distinct(PathsOf(manifest.entries)) && SortedAfterMarker(manifest.entries)
             && forall e :: e in manifest.entries ==> e.path != MANIFEST
    ensures var files, canonical := Exported(encode, store, id, names).files, Canonical(encode, env, dataKey, manifest);
            SameFiles(files, canonical) && DistinctFiles(files) && DistinctFiles(canonical)
  {
    hide RecordOf, MarkerOf, RawFileOf, PathsOf, Less, HoldsPoint, DistinctFiles, Distinct;
    var files, canonical := Exported(encode, store, id, names).files, Canonical(encode, env, dataKey, manifest);
    RawFileKeys(encode, store, id, names);
    CanonicalKeys(encode, env, dataKey, manifest);
    FilesAreDistinct(files);
    FilesAreDistinct(canonical);
    hide Canonical;
    forall f ensures f in files <==> f in canonical {
      if f in files {
        var i :| 0 <= i < |names| && files[i] == f;
        assert names[i] in names;
        ExportedIsCanonical(encode, env, store, id, names[i], dataKey, manifest);
      }
      if f in canonical {
        var name := CanonicalIsExported(encode, env, store, id, f, dataKey, manifest);
        var i :| 0 <= i < |names| && names[i] == name;
        assert files[i] == f;
      }
    }
    Permutations.SameMembers(files, canonical);
  }

  lemma ExportedIsCanonical(encode: Encoding, env: Env, store: Store, id: Id, name: string, dataKey: string,
                            manifest: Manifest)
    requires HoldsPoint(env, store, id, dataKey, manifest) && Key(Point(id), name) in store
    ensures RawFileOf(encode, name, store[Key(Point(id), name)]) in Canonical(encode, env, dataKey, manifest)
  {
    hide RecordOf, MarkerOf, RawFileOf;
    var entries, canonical := manifest.entries, Canonical(encode, env, dataKey, manifest);
    var f := RawFileOf(encode, name, store[Key(Point(id), name)]);
    if name == MARKER {
      assert canonical[0] == f;
    } else if name == MANIFEST {
      assert canonical[1 + |entries|] == f;
    } else {
      var k :| 0 <= k < |entries| && entries[k].path == name;
      assert EntryStored(store, Point(id), entries[k]);
      assert canonical[1 + k] == f;
    }
  }

  lemma CanonicalIsExported(encode: Encoding, env: Env, store: Store, id: Id, f: E.RawFile, dataKey: string,
                            manifest: Manifest) returns (name: string)
    requires HoldsPoint(env, store, id, dataKey, manifest) && f in Canonical(encode, env, dataKey, manifest)
    ensures Key(Point(id), name) in store && f == RawFileOf(encode, name, store[Key(Point(id), name)])
  {
    hide RecordOf, MarkerOf, RawFileOf;
    var entries, canonical := manifest.entries, Canonical(encode, env, dataKey, manifest);
    var k :| 0 <= k < |canonical| && canonical[k] == f;
    name := if k == 0 then MARKER else if k <= |entries| then entries[k - 1].path else MANIFEST;
    if 0 < k <= |entries| {
      assert EntryStored(store, Point(id), entries[k - 1]);
    }
  }

  lemma FilesAreDistinct(files: seq<E.RawFile>)
    requires DistinctFiles(files)
    ensures Distinct(files)
  {
  }

  lemma RawFileKeys(encode: Encoding, store: Store, id: Id, names: seq<string>)
    requires ListsPoint(store, id, names)
    ensures DistinctFiles(Exported(encode, store, id, names).files)
  {
  }

  lemma CanonicalKeys(encode: Encoding, env: Env, dataKey: string, manifest: Manifest)
    requires Distinct(PathsOf(manifest.entries)) && SortedAfterMarker(manifest.entries)
             && forall e :: e in manifest.entries ==> e.path != MANIFEST
    ensures DistinctFiles(Canonical(encode, env, dataKey, manifest))
  {
    hide RecordOf, MarkerOf, Less;
    var entries, canonical := manifest.entries, Canonical(encode, env, dataKey, manifest);
    KeysSortAfterMarker(0, "");
    LessIrreflexive(MARKER);
    forall k | 0 <= k < |entries|
      ensures canonical[1 + k].key == PathsOf(entries)[k] && canonical[1 + k].key != MARKER
              && canonical[1 + k].key != MANIFEST
    {
      assert entries[k] in entries;
    }
    assert canonical[0].key == MARKER && canonical[1 + |entries|].key == MANIFEST;
    hide Canonical, PathsOf;
    forall i, j | 0 <= i < j < |canonical| ensures canonical[i].key != canonical[j].key {
      if 0 < i && j <= |entries| {
        assert PathsOf(entries)[i - 1] != PathsOf(entries)[j - 1];
        assert canonical[1 + (i - 1)].key == PathsOf(entries)[i - 1]
               && canonical[1 + (j - 1)].key == PathsOf(entries)[j - 1];
      } else if 0 < i {
        assert canonical[1 + (i - 1)].key != MANIFEST;
      } else if j <= |entries| {
        assert canonical[1 + (j - 1)].key != MARKER;
      }
    }
  }

  predicate WithinLimits(manifestId: string, files: nat, maxDecoded: int, maxFile: int) {
    && 1 <= maxDecoded <= E.MAX_PACKAGE_BYTES && 1 <= maxFile <= E.MAX_FILE_BYTES
    && E.IsManifestId(manifestId) && files <= E.MAX_FILES
  }

  /**
    What a package must be, in terms of what was backed up: a manifest identifier, nothing empty,
    and the limits on the number of files, the longest file and the total.
   */
  ghost predicate Importable(encode: Encoding, env: Env, dataKey: string, manifest: Manifest, payload: Bytes,
                             items: seq<Item>, chunkBytes: nat, maxDecoded: int, maxFile: int) {
    var marker, record := encode(MarkerFile(MarkerOf(env, dataKey, manifest))),
      encode(ManifestFile(RecordOf(env, dataKey, manifest)));
    && WithinLimits(manifest.manifestId, |manifest.entries| + 2, maxDecoded, maxFile)
    && NoEmptyBody(payload, items)
    && BodiesFit(payload, items, chunkBytes, maxFile) && |marker| <= maxFile && |record| <= maxFile
    && |payload| + TotalBytes(items) + |marker| + |record| <= maxDecoded
  }

  /** Acceptance of a package with the canonical files, file by file. */
  lemma AcceptableByFiles(raw: E.RawPackage, canonical: seq<E.RawFile>, markerOf: E.MarkerParser, maxDecoded: int,
                          maxFile: int)
    requires SameFiles(raw.files, canonical) && DistinctFiles(raw.files) && raw.format == E.FORMAT
    requires |canonical| >= 2 && DistinctFiles(canonical) && canonical[0].key == MARKER
             && canonical[|canonical| - 1].key == MANIFEST
    ensures E.Acceptable(raw, markerOf, maxDecoded, maxFile) <==>
            && WithinLimits(raw.manifestId, |canonical|, maxDecoded, maxFile)
            && AllFilesOk(canonical, maxFile) && E.Total(canonical) <= maxDecoded
            && canonical[0].body.Some? && markerOf(canonical[0].body.value) == Some(raw.manifestId)
  {
    hide SameFiles, AllFilesOk, WithinLimits, E.Acceptable, E.FilesOk, E.Total, DistinctFiles, HasMarker, HasManifest;
    FilesOkByFiles(raw.files, canonical, maxDecoded, maxFile);
    EndsListed(raw.files, canonical);
    OnlyMarker(raw, markerOf, canonical[0], canonical[|canonical| - 1]);
    AcceptableParts(raw, markerOf, maxDecoded, maxFile);
  }

  lemma EndsListed(files: seq<E.RawFile>, canonical: seq<E.RawFile>)
    requires SameFiles(files, canonical) && canonical != []
    ensures |files| == |canonical| && canonical[0] in files && canonical[|canonical| - 1] in files
  {
    SameMultiset(files, canonical);
    assert canonical[0] in canonical && canonical[|canonical| - 1] in canonical;
  }

  ghost predicate HasManifest(raw: E.RawPackage) {
    exists i :: 0 <= i < |raw.files| && raw.files[i].key == MANIFEST
  }

  ghost predicate HasMarker(raw: E.RawPackage, markerOf: E.MarkerParser) {
    exists i :: 0 <= i < |raw.files| && raw.files[i].key == MARKER && raw.files[i].body.Some?
                && markerOf(raw.files[i].body.value) == Some(raw.manifestId)
  }

  lemma AcceptableParts(raw: E.RawPackage, markerOf: E.MarkerParser, maxDecoded: int, maxFile: int)
    ensures E.Acceptable(raw, markerOf, maxDecoded, maxFile) <==>
            && raw.format == E.FORMAT && 1 <= |raw.files|
               && WithinLimits(raw.manifestId, |raw.files|, maxDecoded, maxFile)
            && E.FilesOk(raw.files, maxDecoded, maxFile) && HasManifest(raw) && HasMarker(raw, markerOf)
  {
    hide E.FilesOk, E.IsManifestId;
  }

  /** The marker of a package is the one file of that name. */
  lemma OnlyMarker(raw: E.RawPackage, markerOf: E.MarkerParser, first: E.RawFile, last: E.RawFile)
    requires DistinctFiles(raw.files) && first in raw.files && last in raw.files && first.key == MARKER
             && last.key == MANIFEST
    ensures HasManifest(raw)
    ensures HasMarker(raw, markerOf) <==> first.body.Some? && markerOf(first.body.value) == Some(raw.manifestId)
  {
    var i :| 0 <= i < |raw.files| && raw.files[i] == first;
    var k :| 0 <= k < |raw.files| && raw.files[k] == last;
    assert raw.files[i].key == MARKER && raw.files[k].key == MANIFEST;
    forall j | 0 <= j < |raw.files| && j != i ensures raw.files[j].key != raw.files[i].key {
      assert if j < i then raw.files[j].key != raw.files[i].key else raw.files[i].key != raw.files[j].key;
    }
  }

  lemma FilesOkByFiles(files: seq<E.RawFile>, canonical: seq<E.RawFile>, maxDecoded: int, maxFile: int)
    requires SameFiles(files, canonical) && DistinctFiles(files)
    ensures E.FilesOk(files, maxDecoded, maxFile) <==>
              AllFilesOk(canonical, maxFile) && E.Total(canonical) <= maxDecoded
  {
    hide E.FileOk;
    TotalPermutes(files, canonical);
    SameMultiset(files, canonical);
    hide E.Total;
    if E.FilesOk(files, maxDecoded, maxFile) {
      forall f | f in canonical ensures E.FileOk(f, maxFile) {
        assert f in files;
        var i :| 0 <= i < |files| && files[i] == f;
      }
    }
    forall i | 0 <= i < |files| && AllFilesOk(canonical, maxFile) ensures E.FileOk(files[i], maxFile) {
      assert files[i] in canonical;
    }
  }

  lemma CanonicalFilesOk(encode: Encoding, markerOf: E.MarkerParser, env: Env, dataKey: string, manifest: Manifest,
                         maxFile: int)
    requires Lawful(encode, markerOf) && maxFile >= 1 && forall e :: e in manifest.entries ==> IsSafeKey(e.path)
    ensures AllFilesOk(Canonical(encode, env, dataKey, manifest), maxFile) <==>
            && NoneEmpty(manifest.entries) && AllWithin(manifest.entries, maxFile)
            && |encode(MarkerFile(MarkerOf(env, dataKey, manifest)))| <= maxFile
               && |encode(ManifestFile(RecordOf(env, dataKey, manifest)))| <= maxFile
  {
    hide IsChunkKey, IsObjectKey, RecordOf;
    var entries, canonical := manifest.entries, Canonical(encode, env, dataKey, manifest);
    forall k | 0 <= k < |entries|
      ensures E.FileOk(canonical[1 + k], maxFile) <==> PlainOf(entries[k]) != [] && |PlainOf(entries[k])| <= maxFile
    {
      assert entries[k] in entries && |encode(Chunk(entries[k].envelope.digest))| == |PlainOf(entries[k])|;
    }
    var last := |canonical| - 1;
    assert canonical[0] in canonical && canonical[last] in canonical;
    assert E.FileOk(canonical[0], maxFile) <==> |encode(MarkerFile(MarkerOf(env, dataKey, manifest)))| <= maxFile;
    assert E.FileOk(canonical[last], maxFile) <==> |encode(ManifestFile(RecordOf(env, dataKey, manifest)))| <= maxFile;
    hide E.FileOk, PlainOf;
    if AllFilesOk(canonical, maxFile) {
      forall e | e in entries ensures PlainOf(e) != [] && |PlainOf(e)| <= maxFile {
        var k :| 0 <= k < |entries| && entries[k] == e;
        assert canonical[1 + k] in canonical;
      }
    }
    if NoneEmpty(entries) && AllWithin(entries, maxFile) && E.FileOk(canonical[0], maxFile)
       && E.FileOk(canonical[last], maxFile) {
      forall f | f in canonical ensures E.FileOk(f, maxFile) {
        var k :| 0 <= k < |canonical| && canonical[k] == f;
        if 0 < k < last {
          assert entries[k - 1] in entries;
        }
      }
    }
  }

  lemma CanonicalEnds(encode: Encoding, markerOf: E.MarkerParser, env: Env, dataKey: string, manifest: Manifest)
    requires Lawful(encode, markerOf)
    ensures var canonical := Canonical(encode, env, dataKey, manifest);
            var marker := encode(MarkerFile(MarkerOf(env, dataKey, manifest)));
            && |canonical| == |manifest.entries| + 2 && canonical[0].key == MARKER
               && canonical[|canonical| - 1].key == MANIFEST
            && canonical[0].body == Some(marker) && markerOf(marker) == Some(manifest.manifestId)
  {
    hide RecordOf;
    assert MarkerOf(env, dataKey, manifest).digest.Some?;
  }

  lemma CanonicalTotal(encode: Encoding, markerOf: E.MarkerParser, env: Env, dataKey: string, manifest: Manifest)
    requires Lawful(encode, markerOf)
    ensures E.Total(Canonical(encode, env, dataKey, manifest)) ==
            PlainBytes(manifest.entries) + |encode(MarkerFile(MarkerOf(env, dataKey,
                  manifest)))| + |encode(ManifestFile(RecordOf(env, dataKey, manifest)))|
  {
    hide RecordOf, MarkerOf;
    var first, last := RawFileOf(encode, MARKER, MarkerFile(MarkerOf(env, dataKey, manifest))),
      RawFileOf(encode, MANIFEST, ManifestFile(RecordOf(env, dataKey, manifest)));
    TotalOfEntries(encode, markerOf, manifest.entries);
    TotalJoin([first], EntryFiles(encode, manifest.entries));
    TotalJoin([first] + EntryFiles(encode, manifest.entries), [last]);
    OneTotal(first);
    OneTotal(last);
    hide E.Total;
  }

  lemma OneTotal(file: E.RawFile)
    ensures E.Total([file]) == |file.body.GetOr([])|
  {
    assert [file][..0] == [];
  }

  /**
    Exactly which backups can be imported again: the export of a created point, in any order of its
    files, is an acceptable package if and only if its data and objects are not empty and keep within
    the limits.
   */
  lemma ImportableExactly(encode: Encoding, markerOf: E.MarkerParser, env: Env, store: Store, names: seq<string>,
                          id: Id, dataKey: string, createdAt: nat,
                          payload: Bytes, items: seq<Item>, chunkBytes: nat, maxDecoded: int, maxFile: int)
    requires Lawful(encode, markerOf) && chunkBytes > 0
    requires HoldsPoint(env, store, id, dataKey, ManifestOf(env, id, dataKey, createdAt, payload, items, chunkBytes))
             && ListsPoint(store, id, names)
    ensures E.Acceptable(Exported(encode, store, id, names), markerOf, maxDecoded, maxFile) <==>
            Importable(encode, env, dataKey, ManifestOf(env, id, dataKey, createdAt, payload, items, chunkBytes),
                       payload, items, chunkBytes, maxDecoded, maxFile)
  {
    var manifest := ManifestOf(env, id, dataKey, createdAt, payload, items, chunkBytes);
    var raw, canonical := Exported(encode, store, id, names), Canonical(encode, env, dataKey, manifest);
    AllPaths(id, dataKey, payload, items, chunkBytes);
    NextSourceIsApart(id, dataKey, payload, items, chunkBytes, |items|, Descriptor("", None, None));
    NoEntryIsManifest(id, dataKey, payload, items, chunkBytes);
    hide AllEntries, HoldsPoint, Lawful, E.Acceptable, IsSafeKey, SortedAfterMarker, PathsOf;
    ExportIsCanonical(encode, env, store, id, names, dataKey, manifest);
    CanonicalEnds(encode, markerOf, env, dataKey, manifest);
    CanonicalTotal(encode, markerOf, env, dataKey, manifest);
    hide AllFilesOk, Canonical, Exported, ListsPoint, RecordOf, MarkerOf;
    AcceptableByFiles(raw, canonical, markerOf, maxDecoded, maxFile);
    AllEntriesFacts(id, dataKey, payload, items, chunkBytes, maxFile);
    if 1 <= maxFile && |manifest.entries| + 2 <= E.MAX_FILES {
      CanonicalFilesOk(encode, markerOf, env, dataKey, manifest, maxFile);
    }
  }

  // ---------------------------------------------------------------- backups that cannot be imported again

  const UNDESCRIBED := Descriptor("", None, None)

  /** The empty JSON object. */
  const NO_DATA: Bytes := [0x7b, 0x7d]

  lemma {:induction false} UndescribedItemsPass(items: seq<Item>)
    requires forall i :: 0 <= i < |items| ==> items[i].descriptor == UNDESCRIBED
    ensures CheckItems(items).None?
    decreases |items|
  {
    if items != [] {
      UndescribedItemsPass(items[1..]);
    }
  }

  /** A created point without declared sizes and digests verifies. */
  lemma HeldPointVerifies(env: Env, store: Store, id: Id, dataKey: string, createdAt: nat, items: seq<Item>,
                          chunkBytes: nat)
    requires chunkBytes > 0 && env.isJson(NO_DATA) && env.validates(NO_DATA, items)
    requires forall i :: 0 <= i < |items| ==> items[i].descriptor == UNDESCRIBED
    requires HoldsPoint(env, store, id, dataKey, ManifestOf(env, id, dataKey, createdAt, NO_DATA, items, chunkBytes))
    ensures Verify(env, store, id).Ok?
  {
    hide AllEntries, EntriesStored, VerifyAt, CheckItems;
    var manifest := ManifestOf(env, id, dataKey, createdAt, NO_DATA, items, chunkBytes);
    UndescribedItemsPass(items);
    RoundTrip(env, store, Point(id), id, dataKey, createdAt, NO_DATA, items, chunkBytes,
              Some(RecordOf(env, dataKey, manifest).digest));
  }

  /** A backup of one empty object verifies, and its export is refused. */
  lemma EmptyObjectIsNotImportable(encode: Encoding, markerOf: E.MarkerParser, env: Env, store: Store,
                                   names: seq<string>, dataKey: string)
    requires var items := [Item(UNDESCRIBED, [])];
             && Lawful(encode, markerOf) && env.isJson(NO_DATA) && env.validates(NO_DATA, items)
             && HoldsPoint(env, store, "p", dataKey, ManifestOf(env, "p", dataKey, 0, NO_DATA, items, 8))
                && ListsPoint(store, "p", names)
    ensures Verify(env, store, "p").Ok?
    ensures forall maxDecoded, maxFile ::
              !E.Acceptable(Exported(encode, store, "p", names), markerOf, maxDecoded, maxFile)
  {
    var items := [Item(UNDESCRIBED, [])];
    assert items[0].body == [];
    forall i | 0 <= i < |names| ensures Key(Point("p"), names[i]) in store {
      assert names[i] in names;
    }
    hide HoldsPoint, ListsPoint, Verify, ManifestOf, Lawful, E.Acceptable, Exported;
    HeldPointVerifies(env, store, "p", dataKey, 0, items, 8);
    assert !NoEmptyBody(NO_DATA, items);
    forall maxDecoded, maxFile
      ensures !E.Acceptable(Exported(encode, store, "p", names), markerOf, maxDecoded, maxFile) {
      ImportableExactly(encode, markerOf, env, store, names, "p", dataKey, 0, NO_DATA, items, 8, maxDecoded, maxFile);
    }
  }

  lemma MoreEntriesThanItems(id: Id, dataKey: string, payload: Bytes, items: seq<Item>, chunkBytes: nat)
    requires chunkBytes > 0
    ensures |items| < |AllEntries(id, dataKey, payload, items, chunkBytes)|
  {
    hide NoneEmpty, AllWithin, NoEmptyBody, BodiesFit, AllEntries;
    AllEntriesFacts(id, dataKey, payload, items, chunkBytes, 0);
  }

  /** A backup of 9998 one-byte objects verifies, and its export, of 10001 files, is refused. */
  lemma ManyObjectsAreNotImportable(encode: Encoding, markerOf: E.MarkerParser, env: Env, store: Store,
                                    names: seq<string>, dataKey: string)
    requires var items := seq(9998, _ => Item(UNDESCRIBED, [0]));
             && Lawful(encode, markerOf) && env.isJson(NO_DATA) && env.validates(NO_DATA, items)
             && HoldsPoint(env, store, "p", dataKey, ManifestOf(env, "p", dataKey, 0, NO_DATA, items, 8))
                && ListsPoint(store, "p", names)
    ensures Verify(env, store, "p").Ok?
    ensures forall maxDecoded, maxFile ::
              !E.Acceptable(Exported(encode, store, "p", names), markerOf, maxDecoded, maxFile)
  {
    var items := seq(9998, _ => Item(UNDESCRIBED, [0]));
    var manifest := ManifestOf(env, "p", dataKey, 0, NO_DATA, items, 8);
    MoreEntriesThanItems("p", dataKey, NO_DATA, items, 8);
    assert |manifest.entries| > 9998;
    forall i | 0 <= i < |names| ensures Key(Point("p"), names[i]) in store {
      assert names[i] in names;
    }
    hide HoldsPoint, ListsPoint, Verify, ManifestOf, Lawful, E.Acceptable, Exported, AllEntries;
    HeldPointVerifies(env, store, "p", dataKey, 0, items, 8);
    forall maxDecoded, maxFile
      ensures !E.Acceptable(Exported(encode, store, "p", names), markerOf, maxDecoded, maxFile) {
      ImportableExactly(encode, markerOf, env, store, names, "p", dataKey, 0, NO_DATA, items, 8, maxDecoded, maxFile);
    }
  }
}
