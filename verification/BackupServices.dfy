/**
  Creating, verifying, listing and pruning backup points on a key store whose operations may fail.
  The store remembers every state it has been in, so what holds in all of them holds at every point
  where the process may crash.
 */
module BackupServices {
  import opened BackupPoints
  import opened CodeUnits
  import Permutations
  import opened PointFiles
  import Retention
  import opened Streams
  import opened Wrappers

  // ---------------------------------------------------------------- the key store

  ghost predicate Sorted(names: seq<string>) {
    forall i, j :: 0 <= i < j < |names| ==> Less(names[i], names[j])
  }

  /** Puts a name where it belongs in a sorted listing. */
  function InsertName(name: string, names: seq<string>): seq<string> {
    if names == [] || Less(name, names[0]) then [name] + names else [names[0]] + InsertName(name, names[1..])
  }

  lemma {:induction false} InsertNameFacts(name: string, names: seq<string>)
    requires Sorted(names) && name !in names
    ensures Sorted(InsertName(name, names))
    ensures forall n :: n in InsertName(name, names) <==> n == name || n in names
    decreases |names|
  {
    var out := InsertName(name, names);
    if names == [] {
    } else if Less(name, names[0]) {
      forall j | 1 <= j < |names| ensures Less(name, names[j]) {
        LessTransitive(name, names[0], names[j]);
      }
      assert forall i, j :: 0 <= i < j < |out| ==> out[j] == names[j - 1] && (i > 0 ==> out[i] == names[i - 1]);
    } else {
      LessTotal(name, names[0]);
      InsertNameFacts(name, names[1..]);
      var rest := InsertName(name, names[1..]);
      forall i | 0 <= i < |rest| ensures Less(names[0], rest[i]) {
        assert rest[i] in rest;
        assert forall n :: n in names[1..] ==> exists j :: 1 <= j < |names| && names[j] == n;
      }
      assert forall n :: n in names <==> n == names[0] || n in names[1..];
      assert forall i, j :: 0 <= i < j < |out| ==> out[j] == rest[j - 1] && (i > 0 ==> out[i] == rest[i - 1]);
    }
  }

  class BackupTarget {
    var files: Store
    ghost var states: seq<Store>
    ghost var faults: nat

    constructor ()
      ensures files == map[] && states == [map[]] && faults == 0
    {
      files, states, faults := map[], [map[]], 0;
    }

    /** A plain write. When it fails, the old file may still be there, or a torn one. */
    method Put(key: Key, file: File) returns (ok: bool)
      modifies this
      ensures states == old(states) + [files]
      ensures if ok then files == old(files)[key := file] && faults == old(faults)
              else faults > old(faults) && (files == old(files) || files == old(files)[key := Torn])
    {
      ok := *;
      if ok {
        files := files[key := file];
      } else {
        faults := faults + 1;
        if * {
          files := files[key := Torn];
        }
      }
      states := states + [files];
    }

    /** A move. When it fails, the file may have been copied already. */
    method Move(from: Key, to: Key) returns (ok: bool)
      requires from in files && from != to
      modifies this
      ensures states == old(states) + [files]
      ensures if ok then files == old(files)[to := old(files)[from]] - {from} && faults == old(faults)
              else faults > old(faults) && (files == old(files) || files == old(files)[to := old(files)[from]])
    {
      ok := *;
      if ok {
        files := files[to := files[from]] - {from};
      } else {
        faults := faults + 1;
        if * {
          files := files[to := files[from]];
        }
      }
      states := states + [files];
    }

    method Delete(key: Key) returns (ok: bool)
      modifies this
      ensures states == old(states) + [files]
      ensures if ok then files == old(files) - {key} && faults == old(faults)
              else files == old(files) && faults > old(faults)
    {
      ok := *;
      if ok {
        files := files - {key};
      } else {
        faults := faults + 1;
      }
      states := states + [files];
    }

    method Get(key: Key) returns (ok: bool, file: Option<File>)
      modifies `faults
      ensures if ok then faults == old(faults) && file == (if key in files then Some(files[key]) else None)
              else faults > old(faults)
    {
      ok, file := *, None;
      if !ok {
        faults := faults + 1;
      } else if key in files {
        file := Some(files[key]);
      }
    }

    /** The names at a place, sorted by code units. */
    method List(place: Place) returns (ok: bool, names: seq<string>)
      modifies `faults
      ensures Sorted(names) && forall n :: n in names ==> Key(place, n) in files
      ensures if ok then faults == old(faults)
              && forall n :: n in names <==> Key(place, n) in files else faults > old(faults)
    {
      ok, names := *, [];
      if !ok {
        faults := faults + 1;
        return;
      }
      var rest := set key | key in files && key.place == place;
      while rest != {}
        invariant Sorted(names) && rest <= files.Keys && faults == old(faults)
        invariant forall key :: key in files && key.place == place ==> (key in rest <==> key.file !in names)
        invariant forall key :: key in rest ==> key.place == place
        invariant forall n :: n in names ==> Key(place, n) in files
        decreases |rest|
      {
        var key :| key in rest;
        InsertNameFacts(key.file, names);
        hide Sorted;
        names := InsertName(key.file, names);
        rest := rest - {key};
      }
      forall n | Key(place, n) in files ensures n in names {
        assert Key(place, n) !in rest;
      }
    }

    /** The identifiers under which anything named like a commit marker is published. */
    method ListCommitted() returns (ok: bool, ids: set<Id>)
      modifies `faults
      ensures if ok then faults == old(faults) && ids == Committed(files) else faults > old(faults) && ids == {}
    {
      ok, ids := *, {};
      if !ok {
        faults := faults + 1;
      } else {
        ids := Committed(files);
      }
    }
  }

  predicate EndsWithMarker(name: string) {
    var n := |name| - |MARKER|;
    n >= 0 && name[n..] == MARKER && (n == 0 || name[n - 1] == '/')
  }

  function Committed(store: Store): set<Id> {
    set key | key in store && key.place.Point? && EndsWithMarker(key.file) :: key.place.id
  }

  /** A point is committed when a file of it is named as the marker, in whatever directory. */
  lemma CommittedExactly(store: Store, id: Id)
    ensures id in Committed(store) <==>
            exists name :: Key(Point(id), name) in store &&
                           (name == "COMMITTED.json" || exists directory :: name == directory + "/COMMITTED.json")
  {
    forall name
      ensures EndsWithMarker(name) <==>
                name == "COMMITTED.json" || exists directory :: name == directory + "/COMMITTED.json"
    {
      MarkersExactly(name);
    }
    hide EndsWithMarker;
  }

  lemma MarkersExactly(name: string)
    ensures EndsWithMarker(name) <==>
              name == "COMMITTED.json" || exists directory :: name == directory + "/COMMITTED.json"
  {
    var n := |name| - |MARKER|;
    if EndsWithMarker(name) && n > 0 {
      assert name == name[..n - 1] + "/COMMITTED.json";
    }
    forall directory | name == directory + "/COMMITTED.json" ensures EndsWithMarker(name) {
      assert name[n..] == MARKER && name[n - 1] == '/';
    }
  }

  // ---------------------------------------------------------------- states of a running backup

  ghost predicate Untouched(base: Store, store: Store, place: Place) {
    forall key: Key :: key.place != place ==> Same(base, key, store, key)
  }

  /** Only temporary files of the backup differ from the base, and none of them passes for a marker. */
  ghost predicate Staging(base: Store, store: Store, id: Id) {
    && Untouched(base, store, Temporary(id))
    && forall name :: Key(Temporary(id), name) in store ==> Less(MARKER, name)
  }

  ghost predicate AllStaging(base: Store, states: seq<Store>, n: nat, id: Id) {
    forall i :: n <= i < |states| ==> Staging(base, states[i], id)
  }

  ghost predicate AllSafe(env: Env, states: seq<Store>, n: nat) {
    forall i :: n <= i < |states| ==> Safe(env, states[i])
  }

  ghost predicate Unused(store: Store, id: Id) {
    forall key :: key in store ==> key.place != Temporary(id) && key.place != Point(id)
  }

  /** Temporary files have no part in what is published. */
  lemma TemporaryIsSafe(env: Env, base: Store, store: Store, id: Id)
    requires Safe(env, base) && Untouched(base, store, Temporary(id))
    ensures Safe(env, store)
  {
    forall p ensures PointKept(base, store, p) {
      forall file ensures Same(base, Key(Point(p), file), store, Key(Point(p), file)) {}
    }
    SafetyPassesOver(env, base, store, {});
  }

  lemma AllStagingIsSafe(env: Env, base: Store, states: seq<Store>, n: nat, id: Id)
    requires Safe(env, base) && AllStaging(base, states, n, id)
    ensures AllSafe(env, states, n)
  {
    forall i | n <= i < |states| ensures Safe(env, states[i]) {
      TemporaryIsSafe(env, base, states[i], id);
    }
  }

  lemma StagingKeeps(base: Store, store: Store, id: Id, name: string, file: File)
    requires Staging(base, store, id)
    ensures Less(MARKER, name) ==> Staging(base, store[Key(Temporary(id), name) := file], id)
    ensures Staging(base, store - {Key(Temporary(id), name)}, id)
  {
    hide Less;
    assert forall key: Key :: key.place != Temporary(id) ==> Same(base, key, store, key);
  }

  /** Storing one more chunk under a free name keeps the others. */
  lemma StoredNext(store: Store, place: Place, entries: seq<Entry>, e: Entry)
    requires HoldsEntries(store, place, entries) && forall other :: other in entries ==> other.path != e.path
    ensures HoldsEntries(store[Key(place, e.path) := Chunk(e.envelope.digest)], place, entries + [e])
  {
    var store', more := store[Key(place, e.path) := Chunk(e.envelope.digest)], entries + [e];
    assert forall other :: other in entries ==> EntryStored(store, place, other);
    forall name | Key(place, name) in store' ensures NamesEntry(more, name) {
      assert more[|entries|].path == e.path;
      if name != e.path {
        var i :| 0 <= i < |entries| && entries[i].path == name;
        assert more[i].path == name;
      }
    }
  }

  predicate Numbered(source: Source, number: nat) {
    source.ObjectAt? ==> source.artifactId == ArtifactId(number)
  }

  /** The entries of the first chunks leave the name of the next one free. */
  lemma NextPathIsFree(id: Id, dataKey: string, source: Source, number: nat, before: seq<Entry>, done: seq<Bytes>)
    requires Apart(before, source) && Numbered(source, number)
    ensures forall e :: e in before + EntriesOf(id, dataKey, source, done) ==> e.path != PathOf(source, |done|)
  {
    hide PathOf;
    var entries := EntriesOf(id, dataKey, source, done);
    forall e | e in entries ensures e.path != PathOf(source, |done|) {
      var j :| 0 <= j < |entries| && entries[j] == e;
      PathsAreDistinct(source, j, source, |done|);
    }
  }

  // ---------------------------------------------------------------- writing

  /** Stores one encrypted chunk next to the ones already there. */
  method WriteEntry(target: BackupTarget, id: Id, e: Entry, entries: seq<Entry>, ghost base: Store) returns (ok: bool)
    requires Less(MARKER, e.path) && forall other :: other in entries ==> other.path != e.path
    requires HoldsEntries(target.files, Temporary(id), entries) && Staging(base, target.files, id)
    modifies target
    ensures Staging(base, target.files, id) && target.states == old(target.states) + [target.files]
    ensures if ok then target.faults == old(target.faults) else target.faults > old(target.faults)
    ensures ok ==> HoldsEntries(target.files, Temporary(id), entries + [e])
  {
    hide HoldsEntries, Staging, Less;
    StoredNext(target.files, Temporary(id), entries, e);
    StagingKeeps(base, target.files, id, e.path, Chunk(e.envelope.digest));
    StagingKeeps(base, target.files, id, e.path, Torn);
    ok := target.Put(Key(Temporary(id), e.path), Chunk(e.envelope.digest));
  }

  /** The chunks from an offset on; only the first chunk may be empty. */
  function ChunksFrom(body: Bytes, size: nat, offset: nat, index: nat): seq<Bytes>
    requires size > 0 && (index == 0 ==> offset == 0)
  {
    if offset < |body| || (|body| == 0 && index == 0) then Chunks(body[offset..], size) else []
  }

  function ChunkAt(body: Bytes, size: nat, offset: nat): Bytes
    requires offset <= |body|
  {
    body[offset..if offset + size < |body| then offset + size else |body|]
  }

  lemma NextChunk(body: Bytes, size: nat, offset: nat, index: nat)
    requires size > 0 && (index == 0 ==> offset == 0) && (offset < |body| || (|body| == 0 && index == 0))
    ensures ChunksFrom(body, size, offset, index) ==
            [ChunkAt(body, size, offset)] + ChunksFrom(body, size, offset + size, index + 1)
  {
    var rest := body[offset..];
    if |rest| > size {
      assert rest[size..] == body[offset + size..] && rest[..size] == ChunkAt(body, size, offset);
    } else {
      assert rest == ChunkAt(body, size, offset);
    }
  }

  lemma EntriesNext(id: Id, dataKey: string, source: Source, chunks: seq<Bytes>, chunk: Bytes)
    ensures EntriesOf(id, dataKey, source, chunks + [chunk]) ==
            EntriesOf(id, dataKey, source, chunks) + [EntryOf(id, dataKey, source, |chunks|, chunk)]
  {
    hide EntryOf;
  }

  /** What comes of one more chunk: its name is free and sorts after the marker, and it is the next of all. */
  lemma ChunkWritten(id: Id, dataKey: string, source: Source, number: nat, body: Bytes, size: nat, before: seq<Entry>,
                     done: seq<Bytes>, offset: nat)
    requires Apart(before, source) && Numbered(source, number) && size > 0 && (|done| == 0 ==> offset == 0)
    requires offset < |body| || (|body| == 0 && |done| == 0)
    requires Chunks(body, size) == done + ChunksFrom(body, size, offset, |done|)
    ensures var plain, entries := ChunkAt(body, size, offset), before + EntriesOf(id, dataKey, source, done);
            var e := EntryOf(id, dataKey, source, |done|, plain);
            && Less(MARKER, e.path) && (forall other :: other in entries ==> other.path != e.path)
            && before + EntriesOf(id, dataKey, source, done + [plain]) == entries + [e]
            && Chunks(body, size) == done + [plain] + ChunksFrom(body, size, offset + size, |done| + 1)
  {
    hide EntriesOf, ChunksFrom, Chunks, ChunkAt, Less, Apart, PathOf, EntryOf, Numbered;
    var plain := ChunkAt(body, size, offset);
    NextChunk(body, size, offset, |done|);
    NextPathIsFree(id, dataKey, source, number, before, done);
    PathsSortAfterMarker(source, |done|);
    EntriesNext(id, dataKey, source, done, plain);
    EntryPath(id, dataKey, source, |done|, plain);
    Associates(done, [plain], ChunksFrom(body, size, offset + size, |done| + 1));
    Associates(before, EntriesOf(id, dataKey, source, done), [EntryOf(id, dataKey, source, |done|, plain)]);
  }

  lemma EntryPath(id: Id, dataKey: string, source: Source, index: nat, plain: Bytes)
    ensures EntryOf(id, dataKey, source, index, plain).path == PathOf(source, index)
  {
  }

  lemma Associates<T>(a: seq<T>, b: seq<T>, c: seq<T>)
    ensures a + (b + c) == a + b + c
  {
  }

  /**
    Encrypts a body chunk by chunk to temporary files. An empty body still has one, empty, chunk.
   */
  method WriteChunks(target: BackupTarget, id: Id, dataKey: string, source: Source, body: Bytes, size: nat,
                     before: seq<Entry>, ghost number: nat, ghost base: Store)
    returns (ok: bool, entries: seq<Entry>)
    requires size > 0 && Numbered(source, number) && Apart(before, source)
    requires HoldsEntries(target.files, Temporary(id), before) && Staging(base, target.files, id)
    modifies target
    ensures Staging(base, target.files, id)
    ensures old(target.states) <= target.states && AllStaging(base, target.states, |old(target.states)|, id)
    ensures if ok then target.faults == old(target.faults) else target.faults > old(target.faults)
    ensures ok ==>
              entries == before + EntriesOf(id, dataKey, source, Chunks(body, size))
                && HoldsEntries(target.files, Temporary(id), entries)
  {
    hide Staging, HoldsEntries, PathOf, Apart, ChunkAt, EntryOf, Numbered, Less;
    entries, ok := before, true;
    var offset, index := 0, 0;
    ghost var done: seq<Bytes> := [];
    assert before + EntriesOf(id, dataKey, source, done) == before;
    assert body[0..] == body && done + ChunksFrom(body, size, 0, 0) == ChunksFrom(body, size, 0, 0);
    while offset < |body| || (|body| == 0 && index == 0)
      invariant index == |done| && (index == 0 ==> offset == 0)
      invariant Chunks(body, size) == done + ChunksFrom(body, size, offset, index)
      invariant entries == before + EntriesOf(id, dataKey, source, done)
      invariant HoldsEntries(target.files, Temporary(id), entries) && Staging(base, target.files, id)
      invariant old(target.states) <= target.states && AllStaging(base, target.states, |old(target.states)|, id)
      invariant target.faults == old(target.faults)
      decreases |body| - offset, 1 - index
    {
      hide ChunksFrom, EntriesOf, Chunks, AllStaging;
      var plain := ChunkAt(body, size, offset);
      ChunkWritten(id, dataKey, source, number, body, size, before, done, offset);
      var e := EntryOf(id, dataKey, source, index, plain);
      ghost var states := target.states;
      ok := WriteEntry(target, id, e, entries, base);
      OneMoreStaging(base, states, target.files, |old(target.states)|, id);
      if !ok {
        return;
      }
      done := done + [plain];
      entries := entries + [e];
      offset, index := offset + size, index + 1;
    }
  }

  lemma OneMoreStaging(base: Store, states: seq<Store>, store: Store, n: nat, id: Id)
    requires AllStaging(base, states, n, id) && Staging(base, store, id)
    ensures AllStaging(base, states + [store], n, id)
  {
  }

  // ---------------------------------------------------------------- the service

  /** An error while reading the first entries is the error of reading them all. */
  lemma {:induction false} ReadingStops(store: Store, place: Place, dataKey: string, entries: seq<Entry>, n: nat)
    requires n <= |entries| && ReadAll(store, place, dataKey, entries[..n]).Err?
    ensures ReadAll(store, place, dataKey, entries) == ReadAll(store, place, dataKey, entries[..n])
    decreases |entries|
  {
    hide ReadEntry, AddEntry;
    if n == |entries| {
      assert entries[..n] == entries;
    } else {
      var m := |entries| - 1;
      assert entries[..m][..n] == entries[..n];
      ReadingStops(store, place, dataKey, entries[..m], n);
    }
  }

  /** The temporary files are those of one complete backup. */
  ghost predicate Staged(env: Env, store: Store, id: Id, dataKey: string, manifest: Manifest) {
    && EntriesStored(store, Temporary(id), manifest.entries)
    && Key(Temporary(id), MANIFEST) in store
       && store[Key(Temporary(id), MANIFEST)] == ManifestFile(RecordOf(env, dataKey, manifest))
    && forall name :: Key(Temporary(id), name) in store ==> name == MANIFEST || NamesEntry(manifest.entries, name)
  }

  lemma ManifestNext(env: Env, store: Store, id: Id, dataKey: string, manifest: Manifest)
    requires HoldsEntries(store, Temporary(id), manifest.entries)
             && forall e :: e in manifest.entries ==> e.path != MANIFEST
    ensures var staged := store[Key(Temporary(id), MANIFEST) := ManifestFile(RecordOf(env, dataKey, manifest))];
            Staged(env, staged, id, dataKey, manifest)
  {
    hide RecordOf;
    assert forall e :: e in manifest.entries ==> EntryStored(store, Temporary(id), e);
  }

  /** The verdict on a backup of some data. */
  function Verdict(env: Env, manifest: Manifest, payload: Bytes, items: seq<Item>): Result<Contents, Reason> {
    if CheckItems(items).Some? then Err(CheckItems(items).value)
    else if !env.validates(payload, items) then Err(SnapshotRejected)
    else Ok(Contents(manifest, payload, items))
  }

  lemma {:induction false} CheckingStops(items: seq<Item>, n: nat)
    requires n < |items| && CheckItems(items[..n]).None?
    ensures CheckItem(items[n]).Some? ==> CheckItems(items) == CheckItem(items[n])
    ensures CheckItem(items[n]).None? ==> CheckItems(items[..n + 1]).None?
  {
    hide CheckItem;
    var some := items[..n + 1];
    if n > 0 {
      assert items[..n][1..] == items[1..][..n - 1] && some[1..] == items[1..][..n];
      CheckingStops(items[1..], n - 1);
    } else {
      assert some[1..] == [];
    }
  }

  /** A torn or complete manifest is not a marker either. */
  lemma ManifestIsStaging(base: Store, store: Store, id: Id, file: File)
    requires Staging(base, store, id)
    ensures Staging(base, store[Key(Temporary(id), MANIFEST) := file], id)
  {
    hide Staging;
    KeysSortAfterMarker(0, "");
    StagingKeeps(base, store, id, MANIFEST, file);
  }

  // ---------------------------------------------------------------- states of a publication

  /** The first names have moved from the temporary to the published place. */
  ghost predicate Moved(start: Store, store: Store, id: Id, names: seq<string>, n: nat)
    requires n <= |names|
  {
    && OthersKept(start, store, id)
    && (forall name :: Key(Point(id), name) in store <==> name in names[..n])
    && (forall name :: name in names[..n] ==> Same(start, Key(Temporary(id), name), store, Key(Point(id), name)))
    && (forall name :: Key(Temporary(id), name) in store <==> name in names[n..])
    && (forall name :: name in names[n..] ==> Same(start, Key(Temporary(id), name), store, Key(Temporary(id), name)))
  }

  ghost predicate OthersKept(base: Store, store: Store, id: Id) {
    forall key: Key :: key.place != Temporary(id) && key.place != Point(id) ==> Same(base, key, store, key)
  }

  /** Nothing but the files of one backup differs, and its marker is not there. */
  ghost predicate Uncommitted(base: Store, store: Store, id: Id) {
    OthersKept(base, store, id) && !Visible(store, id)
  }

  lemma UncommittedIsSafe(env: Env, base: Store, store: Store, id: Id)
    requires Safe(env, base) && Uncommitted(base, store, id)
    ensures Safe(env, store)
  {
    forall p | p != id ensures PointKept(base, store, p) {
      forall file ensures Same(base, Key(Point(p), file), store, Key(Point(p), file)) {}
    }
    SafetyPassesOver(env, base, store, {id});
  }

  lemma MovedNext(start: Store, store: Store, id: Id, names: seq<string>, n: nat)
    requires n < |names| && Sorted(names) && Moved(start, store, id, names, n)
             && forall name :: name in names ==> Less(MARKER, name)
    ensures var from, to := Key(Temporary(id), names[n]), Key(Point(id), names[n]);
            && from in store
            && Moved(start, store[to := store[from]] - {from}, id, names, n + 1)
            && Uncommitted(start, store[to := store[from]] - {from}, id)
            && Uncommitted(start, store[to := store[from]], id) && Uncommitted(start, store, id)
  {
    var from, to := Key(Temporary(id), names[n]), Key(Point(id), names[n]);
    assert names[n] in names[n..] && MARKER !in names by { LessIrreflexive(MARKER); }
    assert names[..n + 1] == names[..n] + [names[n]] && names[n..] == [names[n]] + names[n + 1..];
    NamesOnce(names, n);
    hide Less, Sorted;
  }

  lemma NamesOnce(names: seq<string>, n: nat)
    requires Sorted(names) && n < |names|
    ensures names[n] !in names[n + 1..] && names[n] !in names[..n]
  {
    forall j | 0 <= j < |names| && j != n ensures names[j] != names[n] {
      LessIrreflexive(names[n]);
    }
  }

  ghost predicate NoTemporary(store: Store, id: Id) {
    forall name :: Key(Temporary(id), name) !in store
  }

  lemma NothingTouched(store: Store, id: Id)
    ensures OthersKept(store, store, id)
  {
  }

  lemma NoneMoved(start: Store, id: Id, names: seq<string>)
    requires forall key :: key in start ==> key.place != Point(id)
    requires forall name :: name in names <==> Key(Temporary(id), name) in start
    ensures Moved(start, start, id, names, 0)
  {
    assert names[..0] == [] && names[0..] == names;
  }

  lemma AllMoved(start: Store, store: Store, id: Id, names: seq<string>)
    requires Moved(start, store, id, names, |names|) && forall name :: name in names ==> Less(MARKER, name)
    ensures Uncommitted(start, store, id) && Uncommitted(start, store[Key(Point(id), MARKER) := Torn], id)
  {
    hide Less;
    LessIrreflexive(MARKER);
    assert names[..|names|] == names;
    assert Key(Point(id), MARKER) !in store;
    forall key: Key | key.place != Temporary(id) && key.place != Point(id)
      ensures Same(start, key, store[Key(Point(id), MARKER) := Torn], key) {
      assert Same(start, key, store, key);
    }
  }

  /** A complete backup with its marker in place is sound, and everything else is as before. */
  lemma CommitIsSafe(env: Env, start: Store, store: Store, id: Id, names: seq<string>, marker: Marker,
                     contents: Contents)
    requires Safe(env, start) && Moved(start, store, id, names, |names|) && marker.manifestId == id
    requires forall name :: Less(MARKER, name) && Key(Temporary(id), name) in start ==> name in names
    requires BackupPoints.VerifyAt(env, start, Temporary(id), id, marker.digest) == Ok(contents)
             && SortedAfterMarker(contents.manifest.entries)
    ensures var committed := store[Key(Point(id), MARKER) := MarkerFile(marker)];
            && Safe(env, committed) && BackupPoints.Verify(env, committed, id) == Ok(contents)
            && OthersKept(start, committed, id) && NoTemporary(committed, id)
  {
    var committed := store[Key(Point(id), MARKER) := MarkerFile(marker)];
    AllMovedOver(start, store, id, names, MarkerFile(marker));
    hide Less, Moved;
    SameVerdict(env, start, Temporary(id), committed, Point(id), id, marker.digest);
    assert ReadMarker(committed, id) == Ok(marker);
    hide BackupPoints.VerifyAt;
    forall p | p != id ensures PointKept(start, committed, p) {
      forall file ensures Same(start, Key(Point(p), file), committed, Key(Point(p), file)) {}
    }
    SafetyPassesOver(env, start, committed, {id});
  }

  /** With all files moved and the marker in place, the point has what was staged, and nothing is staged. */
  lemma AllMovedOver(start: Store, store: Store, id: Id, names: seq<string>, marker: File)
    requires Moved(start, store, id, names, |names|)
    requires forall name :: Less(MARKER, name) && Key(Temporary(id), name) in start ==> name in names
    ensures var committed := store[Key(Point(id), MARKER) := marker];
            && SameAfterMarker(start, Temporary(id), committed, Point(id))
            && OthersKept(start, committed, id) && NoTemporary(committed, id)
  {
    var committed := store[Key(Point(id), MARKER) := marker];
    assert names[..|names|] == names && names[|names|..] == [];
    LessIrreflexive(MARKER);
    forall name | Less(MARKER, name) ensures Same(start, Key(Temporary(id), name), committed, Key(Point(id), name)) {
      assert Same(start, Key(Temporary(id), name), store, Key(Point(id), name)) || name !in names;
    }
  }

  /** After the last move and the marker the point holds what was staged, and nothing else. */
  lemma CommitHolds(env: Env, start: Store, store: Store, id: Id, names: seq<string>, dataKey: string,
                    manifest: Manifest)
    requires Staged(env, start, id, dataKey, manifest) && manifest.manifestId == id
             && SortedAfterMarker(manifest.entries)
    requires Moved(start, store, id, names, |names|)
             && forall name :: name in names <==> Key(Temporary(id), name) in start
    ensures var committed := store[Key(Point(id), MARKER) := MarkerFile(MarkerOf(env, dataKey, manifest))];
            HoldsPoint(env, committed, id, dataKey, manifest)
  {
    hide RecordOf, NamesEntry;
    LessIrreflexive(MARKER);
    KeysSortAfterMarker(0, "");
    hide Less;
    assert names[..|names|] == names;
    forall name | name in names ensures Same(start, Key(Temporary(id), name), store, Key(Point(id), name)) {}
    var committed := store[Key(Point(id), MARKER) := MarkerFile(MarkerOf(env, dataKey, manifest))];
    forall e | e in manifest.entries ensures EntryStored(committed, Point(id), e) {
      assert EntryStored(start, Temporary(id), e) && e.path in names && e.path != MARKER;
    }
    assert MANIFEST in names && MANIFEST != MARKER;
  }

  lemma OneDeleted(base: Store, store: Store, id: Id, name: string)
    requires Untouched(base, store, Temporary(id))
    ensures Untouched(base, store - {Key(Temporary(id), name)}, Temporary(id))
  {
    assert forall key: Key :: key.place != Temporary(id) ==> Same(base, key, store, key);
  }

  /** Without the temporary and published files of one backup, a store is what it was. */
  lemma NothingLeft(base: Store, store: Store, id: Id)
    requires Untouched(base, store, Temporary(id)) && Unused(base, id) && NoTemporary(store, id)
    ensures store == base
  {
    forall key ensures Same(base, key, store, key) {
      if key.place == Temporary(id) {
        assert Key(Temporary(id), key.file) !in store;
      }
    }
    assert forall key :: key in base <==> Same(base, key, store, key) && key in store;
  }

  lemma UntouchedTwice(base: Store, middle: Store, store: Store, place: Place)
    requires Untouched(base, middle, place) && Untouched(middle, store, place)
    ensures Untouched(base, store, place)
  {
    forall key: Key | key.place != place ensures Same(base, key, store, key) {
      assert Same(base, key, middle, key) && Same(middle, key, store, key);
    }
  }

  lemma OthersKeptTwice(base: Store, middle: Store, store: Store, id: Id)
    requires OthersKept(base, middle, id) && OthersKept(middle, store, id)
    ensures OthersKept(base, store, id)
  {
    forall key: Key | key.place != Temporary(id) && key.place != Point(id) ensures Same(base, key, store, key) {
      assert Same(base, key, middle, key) && Same(middle, key, store, key);
    }
  }

  lemma TemporaryKeepsOthers(base: Store, store: Store, id: Id)
    requires Untouched(base, store, Temporary(id))
    ensures OthersKept(base, store, id)
  {
    hide Same;
  }

  lemma StagingKeepsOthers(base: Store, store: Store, id: Id)
    requires Staging(base, store, id) && Unused(base, id)
    ensures OthersKept(base, store, id) && forall key :: key in store ==> key.place != Point(id)
  {
    assert forall key: Key :: key.place != Temporary(id) ==> Same(base, key, store, key);
  }

  lemma StagedVerifies(env: Env, store: Store, id: Id, dataKey: string, createdAt: nat, payload: Bytes,
                       items: seq<Item>, chunkBytes: nat)
    requires chunkBytes > 0 && env.isJson(payload) && CheckItems(items).None? && env.validates(payload, items)
    requires Staged(env, store, id, dataKey, ManifestOf(env, id, dataKey, createdAt, payload, items, chunkBytes))
    ensures var manifest := ManifestOf(env, id, dataKey, createdAt, payload, items, chunkBytes);
            && BackupPoints.VerifyAt(env, store, Temporary(id), id, Some(RecordOf(env, dataKey, manifest).digest)) ==
               Ok(Contents(manifest, payload, items))
            && SortedAfterMarker(manifest.entries)
  {
    hide AllEntries, EntriesStored, BackupPoints.VerifyAt, Less;
    var manifest := ManifestOf(env, id, dataKey, createdAt, payload, items, chunkBytes);
    RoundTrip(env, store, Temporary(id), id, dataKey, createdAt, payload, items, chunkBytes,
              Some(RecordOf(env, dataKey, manifest).digest));
    NextSourceIsApart(id, dataKey, payload, items, chunkBytes, |items|, Descriptor("", None, None));
  }

  // ---------------------------------------------------------------- pruning

  /** A point does not depend on names that sort before its marker. */
  lemma DeletedBefore(env: Env, store: Store, id: Id, name: string)
    requires Sound(env, store, id) && Less(name, MARKER)
    ensures Sound(env, store - {Key(Point(id), name)}, id)
  {
    hide Less, Sound, BackupPoints.Verify;
    LessAsymmetric(name, MARKER);
    LessIrreflexive(MARKER);
    var store' := store - {Key(Point(id), name)};
    forall file | Less(MARKER, file) ensures Same(store, Key(Point(id), file), store', Key(Point(id), file)) {}
    KeptPointVerifies(env, store, store', id);
  }

  lemma DeletedElsewhere(env: Env, store: Store, id: Id, name: string)
    requires Safe(env, store)
             && (Visible(store - {Key(Point(id), name)}, id) ==> Sound(env, store - {Key(Point(id), name)}, id))
    ensures Safe(env, store - {Key(Point(id), name)})
  {
    hide Sound;
    var store' := store - {Key(Point(id), name)};
    forall p | p != id ensures PointKept(store, store', p) {
      forall file ensures Same(store, Key(Point(p), file), store', Key(Point(p), file)) {}
    }
    SafetyPassesOver(env, store, store', {id});
  }

  /** Deleting one more name of a point, in sorted order, never leaves a marker on a damaged point. */
  lemma DeletedNext(env: Env, store: Store, id: Id, names: seq<string>, n: nat)
    requires Safe(env, store) && Sorted(names) && n < |names|
    requires Visible(store, id) ==> MARKER in names[n..]
    ensures var store' := store - {Key(Point(id), names[n])};
            Safe(env, store') && (Visible(store', id) ==> MARKER in names[n + 1..])
  {
    hide Less, Sound;
    var store' := store - {Key(Point(id), names[n])};
    assert names[n..] == [names[n]] + names[n + 1..];
    if Visible(store', id) {
      var j :| n + 1 <= j < |names| && names[j] == MARKER;
      DeletedBefore(env, store, id, names[n]);
    }
    DeletedElsewhere(env, store, id, names[n]);
  }

  /** The first names of a point are deleted, and markers can still be trusted. */
  ghost predicate Deleting(env: Env, base: Store, store: Store, id: Id, names: seq<string>, n: nat)
    requires n <= |names|
  {
    && Safe(env, store) && Pruned(base, store, {id})
    && (Visible(store, id) ==> MARKER in names[n..])
    && (forall name :: Key(Point(id), name) in store ==> name in names[n..])
  }

  lemma DeletingStarts(env: Env, store: Store, id: Id, names: seq<string>)
    requires Safe(env, store) && forall name :: Key(Point(id), name) in store ==> name in names
    ensures Deleting(env, store, store, id, names, 0)
  {
    hide Safe;
    assert names[0..] == names;
  }

  lemma DeletingGoesOn(env: Env, base: Store, store: Store, id: Id, names: seq<string>, n: nat)
    requires n < |names| && Sorted(names) && Deleting(env, base, store, id, names, n)
    ensures Deleting(env, base, store - {Key(Point(id), names[n])}, id, names, n + 1) && Safe(env, store)
  {
    hide Safe, Sorted, Visible, Pruned;
    assert names[n..] == [names[n]] + names[n + 1..];
    PrunedNext(base, store, id, names[n]);
    DeletedNext(env, store, id, names, n);
  }

  lemma DeletingEnds(env: Env, base: Store, store: Store, id: Id, names: seq<string>)
    requires Deleting(env, base, store, id, names, |names|)
    ensures Safe(env, store) && PrunedOnly(base, store, {id})
  {
    hide Safe, Pruned;
    forall key | key in store ensures !(key.place.Point? && key.place.id in {id}) {
      assert key.place == Point(id) ==> key == Key(Point(id), key.file);
    }
  }

  lemma DeletingIsSafe(env: Env, base: Store, store: Store, id: Id, names: seq<string>, n: nat)
    requires n <= |names| && Deleting(env, base, store, id, names, n)
    ensures Safe(env, store) && Pruned(base, store, {id})
  {
    hide Safe, Pruned;
  }

  /** A point without a date sorts as if it were of the beginning of 2000. */
  const UNDATED := 946_684_800_000

  /** How a listing shows a point. */
  function Listed(env: Env, store: Store, id: Id): Retention.Point {
    match BackupPoints.Verify(env, store, id)
    case Ok(contents) => Retention.Point(id, contents.manifest.createdAt, Retention.Verified)
    case Err(_) => Retention.Point(id, UNDATED, Retention.Failed)
  }

  predicate Shows(points: seq<Retention.Point>, id: Id) {
    exists i :: 0 <= i < |points| && points[i].id == id
  }

  /** A listing of the committed points, each once; a point that could not be read is shown as failed. */
  ghost predicate Listing(env: Env, store: Store, points: seq<Retention.Point>) {
    && (forall id :: id in Committed(store) <==> Shows(points, id))
    && (forall i, j :: 0 <= i < j < |points| ==> points[i].id != points[j].id)
    && (forall p :: p in points && p.status.Verified? ==> p == Listed(env, store, p.id))
  }

  ghost predicate ExactListing(env: Env, store: Store, points: seq<Retention.Point>) {
    Listing(env, store, points) && forall p :: p in points ==> p == Listed(env, store, p.id)
  }

  /**
    What a listing shows: every committed point once; one as verified only if it verifies, and then under the
    time it was created at; without failing operations exactly those that verify.
   */
  lemma ListingsExactly(env: Env, store: Store, points: seq<Retention.Point>)
    requires Listing(env, store, points)
    ensures forall id :: id in Committed(store) <==> exists p :: p in points && p.id == id
    ensures forall i, j :: 0 <= i < j < |points| ==> points[i].id != points[j].id
    ensures forall p :: p in points && p.status == Retention.Verified ==>
              && BackupPoints.Verify(env, store, p.id).Ok?
              && p.createdAt == BackupPoints.Verify(env, store, p.id).value.manifest.createdAt
    ensures ExactListing(env, store, points) ==>
              forall p :: p in points ==>
                && (p.status == Retention.Verified <==> BackupPoints.Verify(env, store, p.id).Ok?)
                && (p.status == Retention.Failed ==> p.createdAt == 946684800000)
  {
    hide Committed, BackupPoints.Verify;
    forall id ensures Shows(points, id) <==> exists p :: p in points && p.id == id {
      if Shows(points, id) {
        var i :| 0 <= i < |points| && points[i].id == id;
        assert points[i] in points;
      }
    }
  }

  /** The points of some identifiers are listed, and exactly unless an operation failed. */
  ghost predicate ListedSoFar(env: Env, store: Store, ids: set<Id>, points: seq<Retention.Point>, exact: bool) {
    && (forall id :: id in ids <==> Shows(points, id))
    && (forall i, j :: 0 <= i < j < |points| ==> points[i].id != points[j].id)
    && (forall p :: p in points && (p.status.Verified? || exact) ==> p == Listed(env, store, p.id))
  }

  lemma NoneListed(env: Env, store: Store)
    ensures ListedSoFar(env, store, {}, [], true)
  {
  }

  lemma AllListed(env: Env, store: Store, points: seq<Retention.Point>, exact: bool)
    requires ListedSoFar(env, store, Committed(store), points, exact)
    ensures Listing(env, store, points) && (exact ==> ExactListing(env, store, points))
  {
    hide Listed;
  }

  lemma ListedNext(env: Env, store: Store, ids: set<Id>, points: seq<Retention.Point>, p: Retention.Point, exact: bool)
    requires p.id !in ids && (p.status.Verified? || exact ==> p == Listed(env, store, p.id))
    requires ListedSoFar(env, store, ids, points, exact) || ListedSoFar(env, store, ids, points, true)
    ensures ListedSoFar(env, store, ids + {p.id}, points + [p], exact)
  {
    hide Listed;
    var more := points + [p];
    assert more[|points|] == p && forall i :: 0 <= i < |points| ==> more[i] == points[i];
    forall id ensures id in ids + {p.id} <==> Shows(more, id) {
      if id in ids {
        var i :| 0 <= i < |points| && points[i].id == id;
        assert more[i].id == id;
      }
    }
  }

  /** Sorting a listing leaves it one. */
  lemma ListingPermutes(env: Env, store: Store, points: seq<Retention.Point>, sorted: seq<Retention.Point>)
    requires Listing(env, store, points) && multiset(points) == multiset(sorted)
    ensures Listing(env, store, sorted) && (ExactListing(env, store, points) ==> ExactListing(env, store, sorted))
  {
    hide Listed;
    assert Permutations.Distinct(points);
    Permutations.SameMultiset(points, sorted);
    forall id ensures Shows(points, id) <==> Shows(sorted, id) {
      if i :| 0 <= i < |points| && points[i].id == id {
        assert points[i] in sorted;
      }
      if i :| 0 <= i < |sorted| && sorted[i].id == id {
        assert sorted[i] in points;
      }
    }
    forall i, j | 0 <= i < j < |sorted| ensures sorted[i].id != sorted[j].id {
      assert sorted[i] in points && sorted[j] in points && sorted[i] != sorted[j];
      var a :| 0 <= a < |points| && points[a] == sorted[i];
      var b :| 0 <= b < |points| && points[b] == sorted[j];
      assert if a < b then points[a].id != points[b].id else points[b].id != points[a].id;
    }
  }

  lemma ListingSorted(env: Env, store: Store, points: seq<Retention.Point>, exact: bool)
    requires ListedSoFar(env, store, Committed(store), points, exact)
    ensures var sorted := Retention.NewestFirst(points);
            Listing(env, store, sorted) && (exact ==> ExactListing(env, store, sorted)) && Retention.Descending(sorted)
  {
    hide Retention.NewestFirst, Retention.Descending, Listing, ExactListing;
    AllListed(env, store, points, exact);
    Retention.NewestFirstFacts(points);
    ListingPermutes(env, store, points, Retention.NewestFirst(points));
  }

  /** A store without the published files of some points. */
  ghost predicate Pruned(base: Store, store: Store, pruned: set<Id>) {
    forall key :: Same(base, key, store, key) || (key.place.Point? && key.place.id in pruned && key !in store)
  }

  ghost predicate PrunedOnly(base: Store, store: Store, pruned: set<Id>) {
    Pruned(base, store, pruned) && forall key :: key in store ==> !(key.place.Point? && key.place.id in pruned)
  }

  lemma NothingPruned(store: Store, pruned: set<Id>)
    ensures Pruned(store, store, pruned) && PrunedOnly(store, store, {})
  {
  }

  lemma PrunedNext(base: Store, store: Store, id: Id, name: string)
    requires Pruned(base, store, {id})
    ensures Pruned(base, store - {Key(Point(id), name)}, {id})
  {
    var store' := store - {Key(Point(id), name)};
    forall key ensures Same(base, key, store', key) || (key.place.Point? && key.place.id in {id} && key !in store') {
      assert Same(base, key, store, key) || (key.place.Point? && key.place.id in {id} && key !in store);
    }
  }

  function FirstIds(points: seq<Retention.Point>, n: nat): set<Id>
    requires n <= |points|
  {
    set i | 0 <= i < n :: points[i].id
  }

  class BackupService {
    const env: Env
    const target: BackupTarget
    const chunkBytes: nat
    const policy: Retention.Policy

    constructor (env: Env, target: BackupTarget, chunkBytes: nat, policy: Retention.Policy)
      requires chunkBytes > 0
      ensures this.env == env && this.target == target && this.chunkBytes == chunkBytes && this.policy == policy
    {
      this.env, this.target, this.chunkBytes, this.policy := env, target, chunkBytes, policy;
    }

    method ReadEntries(place: Place, dataKey: string, entries: seq<Entry>) returns (r: Result<Reading, Reason>)
      modifies target`faults
      ensures target.faults >= old(target.faults) && (target.faults > old(target.faults) ==> r == Err(TargetFailed))
      ensures target.faults == old(target.faults) ==> r == ReadAll(target.files, place, dataKey, entries)
    {
      var reading := Reading([], [], map[]);
      for i := 0 to |entries|
        invariant target.faults == old(target.faults)
        invariant ReadAll(target.files, place, dataKey, entries[..i]) == Ok(reading)
      {
        hide AddEntry, Unseal;
        var e := entries[i];
        assert entries[..i + 1][..i] == entries[..i];
        if e.kind.Unknown? {
          ReadingStops(target.files, place, dataKey, entries, i + 1);
          return Err(InvalidEntryKind);
        }
        var ok, file := target.Get(Key(place, e.path));
        if !ok {
          return Err(TargetFailed);
        }
        var plain := if file.None? then Err(MissingEntry) else if !file.value.Chunk? then Err(CipherDigestMismatch)
          else Unseal(e.envelope, file.value.cipher, dataKey, e.aad);
        assert plain == ReadEntry(target.files, place, dataKey, e);
        if plain.Err? {
          ReadingStops(target.files, place, dataKey, entries, i + 1);
          return Err(plain.error);
        }
        var next := AddEntry(reading, e, plain.value);
        if next.Err? {
          ReadingStops(target.files, place, dataKey, entries, i + 1);
          return next;
        }
        reading := next.value;
      }
      assert entries[..|entries|] == entries;
      r := Ok(reading);
    }

    method VerifyAt(place: Place, id: Id, expected: Option<SealedManifest>) returns (r: Result<Contents, Reason>)
      modifies target`faults
      ensures target.faults >= old(target.faults) && (target.faults > old(target.faults) ==> r == Err(TargetFailed))
      ensures target.faults == old(target.faults) ==> r == BackupPoints.VerifyAt(env, target.files, place, id, expected)
    {
      var ok, _ := target.Get(Key(place, MANIFEST));
      if !ok {
        return Err(TargetFailed);
      }
      var opening := OpenManifest(env, target.files, place, id, expected);
      if opening.Err? {
        return Err(opening.error);
      }
      var (manifest, dataKey) := opening.value;
      var reading := ReadEntries(place, dataKey, manifest.entries);
      if reading.Err? {
        return Err(reading.error);
      }
      ReadAllOrders(target.files, place, dataKey, manifest.entries);
      r := Conclude(env, manifest, reading.value);
    }

    method Verify(id: Id) returns (r: Result<Contents, Reason>)
      modifies target`faults
      ensures target.faults >= old(target.faults) && (target.faults > old(target.faults) ==> r == Err(TargetFailed))
      ensures target.faults == old(target.faults) ==> r == BackupPoints.Verify(env, target.files, id)
    {
      hide BackupPoints.VerifyAt;
      var ok, _ := target.Get(Key(Point(id), MARKER));
      if !ok {
        return Err(TargetFailed);
      }
      var marker := ReadMarker(target.files, id);
      if marker.Err? {
        return Err(marker.error);
      }
      r := VerifyAt(Point(id), id, marker.value.digest);
    }

    /** Writes a complete backup to temporary files and verifies it there. */
    method Stage(id: Id, dataKey: string, payload: Bytes, items: seq<Item>, createdAt: nat)
        returns (r: Result<Manifest, Reason>)
      requires chunkBytes > 0 && env.isJson(payload) && Unused(target.files, id)
      modifies target
      ensures old(target.states) <= target.states
              && AllStaging(old(target.files), target.states, |old(target.states)|, id)
      ensures Staging(old(target.files), target.files, id) && target.faults >= old(target.faults)
      ensures target.faults > old(target.faults) ==> r == Err(TargetFailed)
      ensures var manifest := ManifestOf(env, id, dataKey, createdAt, payload, items, chunkBytes);
              target.faults == old(target.faults) ==>
                r == match Verdict(env, manifest, payload, items)
                  case Ok(_) => Ok(manifest) case Err(reason) => Err(reason)
      ensures r.Ok? ==> Staged(env, target.files, id, dataKey, r.value)
    {
      var written := WriteItems(id, dataKey, payload, items);
      if written.Err? {
        return Err(written.error);
      }
      var (entries, objectBytes) := written.value;
      hide Staging, HoldsEntries, AllEntries, CheckItems;
      var manifest := Manifest(id, createdAt, entries, |items|, objectBytes, env.keyId);
      NoEntryIsManifest(id, dataKey, payload, items, chunkBytes);
      ManifestNext(env, target.files, id, dataKey, manifest);
      ManifestIsStaging(old(target.files), target.files, id, ManifestFile(RecordOf(env, dataKey, manifest)));
      ManifestIsStaging(old(target.files), target.files, id, Torn);
      hide RecordOf;
      var ok := target.Put(Key(Temporary(id), MANIFEST), ManifestFile(RecordOf(env, dataKey, manifest)));
      if !ok {
        return Err(TargetFailed);
      }
      RoundTrip(env, target.files, Temporary(id), id, dataKey, createdAt, payload, items, chunkBytes, None);
      var checking := VerifyAt(Temporary(id), id, None);
      r := if checking.Err? then Err(checking.error) else Ok(manifest);
    }

    /** Stages the data and then the objects, up to the first object that is not in order. */
    method WriteItems(id: Id, dataKey: string, payload: Bytes, items: seq<Item>)
        returns (r: Result<(seq<Entry>, nat), Reason>)
      requires chunkBytes > 0 && Unused(target.files, id)
      modifies target
      ensures old(target.states) <= target.states
              && AllStaging(old(target.files), target.states, |old(target.states)|, id)
      ensures Staging(old(target.files), target.files, id) && target.faults >= old(target.faults)
      ensures target.faults > old(target.faults) ==> r == Err(TargetFailed)
      ensures target.faults == old(target.faults) ==>
                if CheckItems(items).Some? then r == Err(CheckItems(items).value)
                else r == Ok((AllEntries(id, dataKey, payload, items, chunkBytes), TotalBytes(items)))
      ensures r.Ok? ==> HoldsEntries(target.files, Temporary(id), r.value.0)
    {
      var ok, entries := WriteChunks(target, id, dataKey, Data, payload, chunkBytes, [], 0, target.files);
      if !ok {
        return Err(TargetFailed);
      }
      var objectBytes := 0;
      assert items[..0] == [];
      for i := 0 to |items|
        invariant old(target.states) <= target.states
                  && AllStaging(old(target.files), target.states, |old(target.states)|, id)
        invariant Staging(old(target.files), target.files, id) && target.faults == old(target.faults)
        invariant entries == AllEntries(id, dataKey, payload, items[..i], chunkBytes)
                  && HoldsEntries(target.files, Temporary(id), entries)
        invariant objectBytes == TotalBytes(items[..i]) && CheckItems(items[..i]).None?
      {
        hide Staging, HoldsEntries, CheckItem, EntriesOf, Chunks, Apart;
        CheckingStops(items, i);
        var complaint := CheckItem(items[i]);
        if complaint.Some? {
          return Err(complaint.value);
        }
        objectBytes := objectBytes + |items[i].body|;
        NextSourceIsApart(id, dataKey, payload, items[..i], chunkBytes, i, items[i].descriptor);
        ok, entries := WriteChunks(target, id, dataKey, SourceOf(items, i), items[i].body, chunkBytes, entries, i + 1,
                                   old(target.files));
        if !ok {
          return Err(TargetFailed);
        }
        assert items[..i + 1][..i] == items[..i];
        assert SourceOf(items[..i + 1], i) == SourceOf(items, i);
      }
      assert items[..|items|] == items;
      r := Ok((entries, objectBytes));
    }

    /** Moves a staged backup to its destination, and then puts the commit marker there. */
    method Publish(id: Id, dataKey: string, manifest: Manifest, ghost contents: Contents) returns (ok: bool)
      requires Safe(env, target.files) && forall key :: key in target.files ==> key.place != Point(id)
      requires forall name :: Key(Temporary(id), name) in target.files ==> Less(MARKER, name)
      requires var expected := Some(RecordOf(env, dataKey, manifest).digest);
               BackupPoints.VerifyAt(env, target.files, Temporary(id), id, expected) == Ok(contents)
      requires SortedAfterMarker(contents.manifest.entries)
      requires Staged(env, target.files, id, dataKey, manifest) && manifest.manifestId == id
               && contents.manifest == manifest
      modifies target
      ensures old(target.states) <= target.states && AllSafe(env, target.states, |old(target.states)|)
      ensures Safe(env, target.files) && OthersKept(old(target.files), target.files, id)
      ensures if ok then target.faults == old(target.faults) else target.faults > old(target.faults)
      ensures ok ==> BackupPoints.Verify(env, target.files, id) == Ok(contents) && NoTemporary(target.files, id)
      ensures ok ==> HoldsPoint(env, target.files, id, dataKey, manifest)
    {
      hide Staged, HoldsPoint, Safe, Moved, Less, Sorted, BackupPoints.VerifyAt, SortedAfterMarker, OthersKept;
      ghost var start := target.files;
      var names;
      ok, names := target.List(Temporary(id));
      if !ok {
        NothingTouched(start, id);
        return;
      }
      NoneMoved(start, id, names);
      for i := 0 to |names|
        invariant old(target.states) <= target.states && AllSafe(env, target.states, |old(target.states)|)
        invariant target.faults == old(target.faults) && Moved(start, target.files, id, names, i)
      {
        MovedNext(start, target.files, id, names, i);
        var from, to := Key(Temporary(id), names[i]), Key(Point(id), names[i]);
        UncommittedIsSafe(env, start, target.files, id);
        UncommittedIsSafe(env, start, target.files[to := target.files[from]], id);
        UncommittedIsSafe(env, start, target.files[to := target.files[from]] - {from}, id);
        ok := target.Move(from, to);
        if !ok {
          return;
        }
      }
      var marker := MarkerOf(env, dataKey, manifest);
      CommitHolds(env, start, target.files, id, names, dataKey, manifest);
      CommitIsSafe(env, start, target.files, id, names, marker, contents);
      AllMoved(start, target.files, id, names);
      UncommittedIsSafe(env, start, target.files, id);
      UncommittedIsSafe(env, start, target.files[Key(Point(id), MARKER) := Torn], id);
      ok := target.Put(Key(Point(id), MARKER), MarkerFile(marker));
      if !ok {
        return;
      }
      var checking := Verify(id);
      ok := checking.Ok?;
    }

    /** Removes what is left of a failed backup; a delete that fails is passed over. */
    method RemoveTemporary(id: Id)
      modifies target
      ensures old(target.states) <= target.states && Untouched(old(target.files), target.files, Temporary(id))
      ensures forall i :: |old(target.states)| <= i < |target.states| ==>
                Untouched(old(target.files), target.states[i], Temporary(id))
      ensures target.faults >= old(target.faults)
      ensures target.faults == old(target.faults) ==> NoTemporary(target.files, id)
    {
      var ok, names := target.List(Temporary(id));
      if !ok {
        return;
      }
      for i := 0 to |names|
        invariant old(target.states) <= target.states && Untouched(old(target.files), target.files, Temporary(id))
        invariant forall i :: |old(target.states)| <= i < |target.states| ==>
                    Untouched(old(target.files), target.states[i], Temporary(id))
        invariant target.faults >= old(target.faults)
        invariant target.faults == old(target.faults) ==>
                    forall name :: Key(Temporary(id), name) in target.files ==> name in names[i..]
      {
        hide Untouched;
        OneDeleted(old(target.files), target.files, id, names[i]);
        assert names[i..] == [names[i]] + names[i + 1..];
        ok := target.Delete(Key(Temporary(id), names[i]));
      }
    }

    /**
      Takes a backup. At every point at which the process may crash, a visible commit marker means a
      point that verifies. A backup that reports success verifies, and gives back exactly the data
      and the objects; without failing operations it succeeds exactly when the data and the objects
      are in order, and otherwise leaves nothing behind.
     */
    method Create(id: Id, dataKey: string, payload: Bytes, items: seq<Item>, createdAt: nat)
        returns (r: Result<Manifest, Reason>)
      requires chunkBytes > 0 && env.isJson(payload) && Unused(target.files, id) && Safe(env, target.files)
      modifies target
      ensures old(target.states) <= target.states && AllSafe(env, target.states, |old(target.states)|)
              && Safe(env, target.files)
      ensures OthersKept(old(target.files), target.files, id) && target.faults >= old(target.faults)
      ensures r.Ok? ==>
                NoTemporary(target.files, id)
                  && BackupPoints.Verify(env, target.files, id) == Ok(Contents(r.value, payload, items))
      ensures r.Ok? ==>
                r.value == ManifestOf(env, id, dataKey, createdAt, payload, items, chunkBytes)
                  && HoldsPoint(env, target.files, id, dataKey, r.value)
      ensures var manifest := ManifestOf(env, id, dataKey, createdAt, payload, items, chunkBytes);
              target.faults == old(target.faults) ==>
                && r == (match Verdict(env, manifest, payload, items)
                         case Ok(_) => Ok(manifest) case Err(reason) => Err(reason))
                && (r.Err? ==> target.files == old(target.files))
    {
      ghost var base, logged := target.files, |target.states|;
      r := Stage(id, dataKey, payload, items, createdAt);
      assert r.Ok? ==> r.value.manifestId == id;
      hide Safe, BackupPoints.VerifyAt, ManifestOf, Same, Less, SortedAfterMarker, RecordOf, Staged, HoldsPoint;
      AllStagingIsSafe(env, base, target.states, logged, id);
      TemporaryIsSafe(env, base, target.files, id);
      StagingKeepsOthers(base, target.files, id);
      ghost var staged, stagedAt := target.files, |target.states|;
      if r.Ok? {
        StagedVerifies(env, target.files, id, dataKey, createdAt, payload, items, chunkBytes);
        var ok := Publish(id, dataKey, r.value, Contents(r.value, payload, items));
        OthersKeptTwice(base, staged, target.files, id);
        if ok {
          return;
        }
        r := Err(TargetFailed);
      }
      ghost var failed, failedAt := target.files, |target.states|;
      RemoveTemporary(id);
      forall i | failedAt <= i < |target.states| ensures Safe(env, target.states[i]) {
        TemporaryIsSafe(env, failed, target.states[i], id);
      }
      TemporaryIsSafe(env, failed, target.files, id);
      TemporaryKeepsOthers(failed, target.files, id);
      OthersKeptTwice(base, failed, target.files, id);
      if target.faults == old(target.faults) {
        UntouchedTwice(base, failed, target.files, Temporary(id));
        NothingLeft(base, target.files, id);
      }
    }

    /** How one committed point is listed. */
    method ListOne(id: Id) returns (p: Retention.Point)
      modifies target`faults
      ensures target.faults >= old(target.faults) && p.id == id
      ensures p.status.Verified? || target.faults == old(target.faults) ==> p == Listed(env, target.files, id)
    {
      hide BackupPoints.Verify;
      var r := Verify(id);
      match r
      case Ok(contents) => p := Retention.Point(id, contents.manifest.createdAt, Retention.Verified);
      case Err(_) => p := Retention.Point(id, UNDATED, Retention.Failed);
    }

    /** Verifies every committed point; one that cannot be read or does not verify is listed as failed. */
    method List() returns (ok: bool, points: seq<Retention.Point>)
      modifies target`faults
      ensures target.faults >= old(target.faults)
              && (target.faults == old(target.faults) ==> ok && ExactListing(env, target.files, points))
      ensures ok ==> Listing(env, target.files, points) && Retention.Descending(points)
    {
      hide Committed, Listed, Retention.NewestFirst, Retention.Descending, BackupPoints.Verify, ListedSoFar, Listing,
           ExactListing;
      points := [];
      var ids;
      ok, ids := target.ListCommitted();
      if !ok {
        return;
      }
      var rest := ids;
      ghost var done: set<Id> := {};
      NoneListed(env, target.files);
      while rest != {}
        invariant done !! rest && rest == ids - done && done <= ids && target.faults >= old(target.faults)
        invariant ListedSoFar(env, target.files, done, points, target.faults == old(target.faults))
        decreases |rest|
      {
        var id :| id in rest;
        var p := ListOne(id);
        ListedNext(env, target.files, done, points, p, target.faults == old(target.faults));
        points, rest, done := points + [p], rest - {id}, done + {id};
      }
      assert done == ids;
      ListingSorted(env, target.files, points, target.faults == old(target.faults));
      points := Retention.NewestFirst(points);
    }

    /** Deletes the files of one point, in sorted order, until a delete fails. */
    method DeletePoint(id: Id) returns (ok: bool)
      requires Safe(env, target.files)
      modifies target
      ensures old(target.states) <= target.states && AllSafe(env, target.states, |old(target.states)|)
              && Safe(env, target.files)
      ensures Pruned(old(target.files), target.files, {id})
      ensures if ok then target.faults == old(target.faults) && PrunedOnly(old(target.files), target.files, {id})
              else target.faults > old(target.faults)
    {
      hide Safe, Sorted, Deleting, Pruned, PrunedOnly;
      var names;
      ok, names := target.List(Point(id));
      NothingPruned(target.files, {id});
      if !ok {
        return;
      }
      DeletingStarts(env, target.files, id, names);
      for i := 0 to |names|
        invariant old(target.states) <= target.states && AllSafe(env, target.states, |old(target.states)|)
        invariant target.faults == old(target.faults) && Deleting(env, old(target.files), target.files, id, names, i)
      {
        DeletingGoesOn(env, old(target.files), target.files, id, names, i);
        DeletingIsSafe(env, old(target.files), target.files, id, names, i);
        DeletingIsSafe(env, old(target.files), target.files - {Key(Point(id), names[i])}, id, names, i + 1);
        ok := target.Delete(Key(Point(id), names[i]));
        if !ok {
          return;
        }
      }
      DeletingEnds(env, old(target.files), target.files, id, names);
      DeletingIsSafe(env, old(target.files), target.files, id, names, |names|);
    }

    /**
      Deletes the points that retention does not keep. At every point at which the process may crash,
      a visible commit marker means a point that verifies. Without failing operations exactly the
      files of the pruned points are gone; a dry run changes nothing.
     */
    method Prune(dryRun: bool)
        returns (ok: bool, keep: seq<Retention.Point>, prune: seq<Retention.Point>, ghost points: seq<Retention.Point>)
      requires Safe(env, target.files)
      modifies target
      ensures old(target.states) <= target.states && AllSafe(env, target.states, |old(target.states)|)
              && Safe(env, target.files)
      ensures if ok then Listing(env, old(target.files), points) else target.faults > old(target.faults)
      ensures target.faults == old(target.faults) ==> ExactListing(env, old(target.files), points)
      ensures ok ==>
                var verified := Retention.NewestFirst(Retention.VerifiedOf(points));
                && keep == Retention.WithIds(verified, Retention.KeptIds(policy, verified, |verified|), true)
                && prune == Retention.WithIds(verified, Retention.KeptIds(policy, verified, |verified|), false)
                && (if dryRun then target.files == old(target.files)
                    else PrunedOnly(old(target.files), target.files, FirstIds(prune, |prune|)))
    {
      hide Safe, PrunedOnly, Pruned, Listing, ExactListing;
      keep, prune := [], [];
      var listed;
      ok, listed := List();
      points := listed;
      if !ok {
        return;
      }
      keep, prune := Retention.SelectRetention(listed, policy);
      if dryRun {
        return;
      }
      ghost var faulty := target.faults;
      NothingPruned(target.files, {});
      assert FirstIds(prune, 0) == {};
      for i := 0 to |prune|
        invariant old(target.states) <= target.states && AllSafe(env, target.states, |old(target.states)|)
                  && Safe(env, target.files)
        invariant target.faults == faulty
        invariant PrunedOnly(old(target.files), target.files, FirstIds(prune, i))
      {
        ghost var before := target.files;
        ok := DeletePoint(prune[i].id);
        if !ok {
          return;
        }
        PrunedTwice(old(target.files), before, target.files, FirstIds(prune, i), prune[i].id);
        assert FirstIds(prune, i + 1) == FirstIds(prune, i) + {prune[i].id};
      }
    }
  }

  lemma PrunedTwice(base: Store, middle: Store, store: Store, some: set<Id>, id: Id)
    requires PrunedOnly(base, middle, some) && PrunedOnly(middle, store, {id})
    ensures PrunedOnly(base, store, some + {id})
  {
    forall key
      ensures Same(base, key, store, key) || (key.place.Point? && key.place.id in some + {id} && key !in store) {
      assert Same(base, key, middle, key) || (key.place.Point? && key.place.id in some && key !in middle);
      assert Same(middle, key, store, key) || (key.place.Point? && key.place.id in {id} && key !in store);
    }
  }

  /** What retention keeps still verifies after pruning, with the same contents. */
  lemma KeptPointsStillVerify(env: Env, base: Store, store: Store, pruned: set<Id>, id: Id)
    requires PrunedOnly(base, store, pruned) && id !in pruned && Visible(base, id) && Safe(env, base)
    ensures BackupPoints.Verify(env, store, id) == BackupPoints.Verify(env, base, id) && Verify(env, store, id).Ok?
  {
    hide BackupPoints.Verify;
    forall file ensures Same(base, Key(Point(id), file), store, Key(Point(id), file)) {
      var key := Key(Point(id), file);
      assert Same(base, key, store, key) || (key.place.Point? && key.place.id in pruned && key !in store);
    }
    KeptPointVerifies(env, base, store, id);
  }

  lemma {:induction false} VerifiedOfFacts(points: seq<Retention.Point>)
    ensures forall p :: p in Retention.VerifiedOf(points) ==> p in points && p.status.Verified?
    decreases |points|
  {
    if points != [] {
      VerifiedOfFacts(points[1..]);
    }
  }

  /** A torn marker shows as a failed point, which no prune removes. */
  lemma TornPointStays(env: Env, store: Store, points: seq<Retention.Point>, policy: Retention.Policy, id: Id)
    requires TornMarker(store, id) && Listing(env, store, points)
    ensures exists i :: 0 <= i < |points| && points[i].id == id && points[i].status.Failed?
    ensures var verified := Retention.NewestFirst(Retention.VerifiedOf(points));
            forall p :: p in Retention.WithIds(verified, Retention.KeptIds(policy, verified, |verified|), false) ==>
                     p.id != id
  {
    hide BackupPoints.VerifyAt, Retention.KeptIds;
    var verified := Retention.NewestFirst(Retention.VerifiedOf(points));
    assert EndsWithMarker(MARKER) && id in Committed(store);
    var i :| 0 <= i < |points| && points[i].id == id;
    assert points[i] in points && points[i].status.Failed?;
    VerifiedOfFacts(points);
    Retention.NewestFirstFacts(Retention.VerifiedOf(points));
    hide Retention.NewestFirst, Retention.VerifiedOf;
    Retention.KeepAndPrunePartition(verified, Retention.KeptIds(policy, verified, |verified|));
    hide Retention.WithIds;
    forall p | p in verified ensures p.id != id {
      assert p in multiset(verified);
    }
  }
}
