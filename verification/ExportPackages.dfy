/** Validation of an export package read from a file, before any store operation. */
module ExportPackages {
  import opened Decimals
  import opened Imports
  import opened PointFiles
  import opened Streams
  import opened Wrappers

  const MAX_PACKAGE_BYTES := 256 * 1024 * 1024
  const MAX_FILE_BYTES := 64 * 1024 * 1024
  const MAX_FILES := 10000

  /** One listed file; its body is absent when the text is empty or not canonical base64. */
  datatype RawFile = RawFile(key: string, body: Option<Bytes>)

  datatype RawPackage = RawPackage(format: string, manifestId: string, files: seq<RawFile>)

  const FORMAT := "dynamic-panel-export-v1"

  datatype Reason = InvalidLimit | InvalidPackage | InvalidKey | InvalidBase64 | TooLarge | InvalidMarker

  /** The manifest identifier named by a well-formed commit marker. */
  type MarkerParser = Bytes -> Option<string>

  predicate IsAlphanumeric(c: char) {
    IsDigit(c) || 'a' <= c <= 'z' || 'A' <= c <= 'Z'
  }

  predicate IsManifestId(s: string) {
    && 1 <= |s| <= 128 && IsAlphanumeric(s[0])
    && forall i :: 1 <= i < |s| ==> IsAlphanumeric(s[i]) || s[i] == '_' || s[i] == '-'
  }

  function Total(files: seq<RawFile>): nat {
    if files == [] then 0
    else Total(files[..|files| - 1]) + |files[|files| - 1].body.GetOr([])|
  }

  predicate FileOk(file: RawFile, maxFile: int) {
    IsSafeKey(file.key) && file.body.Some? && 1 <= |file.body.value| <= maxFile
  }

  /** The files by themselves: each acceptable, each key once, together not too large. */
  ghost predicate FilesOk(files: seq<RawFile>, maxDecoded: int, maxFile: int) {
    && (forall i :: 0 <= i < |files| ==> FileOk(files[i], maxFile))
    && (forall i, j :: 0 <= i < j < |files| ==> files[i].key != files[j].key)
    && Total(files) <= maxDecoded
  }

  /** What makes a package acceptable, read off the package as a whole. */
  ghost predicate Acceptable(raw: RawPackage, markerOf: MarkerParser, maxDecoded: int, maxFile: int) {
    && 1 <= maxDecoded <= MAX_PACKAGE_BYTES && 1 <= maxFile <= MAX_FILE_BYTES
    && raw.format == FORMAT && IsManifestId(raw.manifestId) && 1 <= |raw.files| <= MAX_FILES
    && FilesOk(raw.files, maxDecoded, maxFile)
    && (exists i :: 0 <= i < |raw.files| && raw.files[i].key == MANIFEST)
    && (exists i :: 0 <= i < |raw.files| && raw.files[i].key == MARKER && raw.files[i].body.Some?
                    && markerOf(raw.files[i].body.value) == Some(raw.manifestId))
  }

  /**
    What makes a package acceptable, without any name: the limits asked for are within those of the program,
    the format is the one it writes, the identifier starts with a letter or digit and goes on with those, `_`
    or `-`, there are at most 10000 files, each with a key of the four forms, given once, and a body that
    decodes to between one byte and the limit, together within the limit, and among them are a manifest and a
    commit marker for this identifier.
   */
  lemma AcceptableExactly(raw: RawPackage, markerOf: MarkerParser, maxDecoded: int, maxFile: int)
    ensures Acceptable(raw, markerOf, maxDecoded, maxFile) <==>
            && 1 <= maxDecoded <= 268435456 && 1 <= maxFile <= 67108864
            && raw.format == "dynamic-panel-export-v1"
            && 1 <= |raw.manifestId| <= 128 && raw.manifestId[0] != '_' && raw.manifestId[0] != '-'
            && (forall c :: c in raw.manifestId ==>
                  '0' <= c <= '9' || 'a' <= c <= 'z' || 'A' <= c <= 'Z' || c == '_' || c == '-')
            && 1 <= |raw.files| <= 10000 && Total(raw.files) <= maxDecoded
            && (forall f :: f in raw.files ==> IsSafeKey(f.key) && f.body.Some? && 1 <= |f.body.value| <= maxFile)
            && (forall i, j :: 0 <= i < j < |raw.files| ==> raw.files[i].key != raw.files[j].key)
            && (exists f :: f in raw.files && f.key == "manifest.enc.json")
            && (exists f :: f in raw.files && f.key == "COMMITTED.json" && f.body.Some?
                            && markerOf(f.body.value) == Some(raw.manifestId))
  {
    IdsExactly(raw.manifestId);
    hide IsSafeKey, Total, IsManifestId;
    forall i | 0 <= i < |raw.files| ensures raw.files[i] in raw.files {}
  }

  lemma IdsExactly(s: string)
    ensures IsManifestId(s) <==>
            && 1 <= |s| <= 128 && s[0] != '_' && s[0] != '-'
            && forall c :: c in s ==> '0' <= c <= '9' || 'a' <= c <= 'z' || 'A' <= c <= 'Z' || c == '_' || c == '-'
  {
    forall i | 0 <= i < |s| ensures s[i] in s {}
  }

  /** The bytes of a package are those of its files, one after the other. */
  lemma {:induction false} TotalExactly(files: seq<RawFile>, file: RawFile)
    ensures Total([]) == 0
    ensures Total(files + [file]) == Total(files) + if file.body.Some? then |file.body.value| else 0
  {
    assert (files + [file])[..|files|] == files;
  }

  /** The collected keys and bodies are the listed files. */
  ghost predicate Collected(files: seq<RawFile>, n: nat, keys: seq<string>, bodies: map<string, Bytes>)
    requires n <= |files|
  {
    && |keys| == n
    && (forall j :: 0 <= j < n ==>
        keys[j] == files[j].key && keys[j] in bodies && files[j].body == Some(bodies[keys[j]]))
    && (forall k :: k in bodies ==> k in keys)
  }

  lemma {:induction false} TotalGrows(files: seq<RawFile>, n: nat)
    requires n <= |files|
    ensures Total(files[..n]) <= Total(files)
    decreases |files|
  {
    if n < |files| {
      assert files[..|files| - 1][..n] == files[..n];
      TotalGrows(files[..|files| - 1], n);
    } else {
      assert files[..n] == files;
    }
  }

  /** Reads the files one after the other, remembering the keys seen and the bytes so far. */
  method CollectFiles(files: seq<RawFile>, maxDecoded: int, maxFile: int)
    returns (reason: Option<Reason>, keys: seq<string>, bodies: map<string, Bytes>)
    requires 0 <= maxDecoded
    ensures reason.None? <==> FilesOk(files, maxDecoded, maxFile)
    ensures reason.None? ==> Collected(files, |files|, keys, bodies)
  {
    var seen: set<string> := {};
    var total := 0;
    keys, bodies := [], map[];
    assert files[..0] == [];
    for i := 0 to |files|
      invariant total == Total(files[..i])
      invariant FilesOk(files[..i], maxDecoded, maxFile)
      invariant bodies.Keys == seen && Collected(files, i, keys, bodies)
    {
      hide FilesOk, FileOk, Total, Collected;
      var file := files[i];
      NextFile(files, i, maxDecoded, maxFile);
      SeenKeys(files, i, keys, bodies);
      if !IsSafeKey(file.key) || file.key in seen {
        SpoiledFiles(files, i, maxDecoded, maxFile);
        return Some(InvalidKey), keys, bodies;
      }
      if file.body.None? || |file.body.value| == 0 || |file.body.value| > maxFile {
        SpoiledFiles(files, i, maxDecoded, maxFile);
        return Some(InvalidBase64), keys, bodies;
      }
      total := total + |file.body.value|;
      if total > maxDecoded {
        TooMuch(files, maxDecoded, maxFile, i + 1);
        return Some(TooLarge), keys, bodies;
      }
      CollectNext(files, i, keys, bodies);
      seen, keys, bodies := seen + {file.key}, keys + [file.key], bodies[file.key := file.body.value];
    }
    assert files[..|files|] == files;
    reason := None;
  }

  /** A package is accepted exactly when it is acceptable, and then it is the listed files. */
  method ValidatePackage(raw: RawPackage, markerOf: MarkerParser, maxDecoded: int, maxFile: int)
      returns (r: Result<Package, Reason>)
    ensures r.Ok? <==> Acceptable(raw, markerOf, maxDecoded, maxFile)
    ensures r.Ok? ==>
              && r.value.manifestId == raw.manifestId && WellFormed(r.value)
              && Collected(raw.files, |raw.files|, r.value.keys, r.value.bodies)
  {
    if maxDecoded < 1 || maxDecoded > MAX_PACKAGE_BYTES || maxFile < 1 || maxFile > MAX_FILE_BYTES {
      return Err(InvalidLimit);
    }
    if raw.format != FORMAT || !IsManifestId(raw.manifestId) || |raw.files| == 0 || |raw.files| > MAX_FILES {
      return Err(InvalidPackage);
    }
    var reason, keys, bodies := CollectFiles(raw.files, maxDecoded, maxFile);
    if reason.Some? {
      return Err(reason.value);
    }
    CollectedFiles(raw.files, keys, bodies, maxDecoded, maxFile);
    hide FilesOk, Collected;
    if MANIFEST !in bodies || MARKER !in bodies {
      return Err(InvalidPackage);
    }
    if markerOf(bodies[MARKER]) != Some(raw.manifestId) {
      return Err(InvalidMarker);
    }
    r := Ok(Package(raw.manifestId, keys, bodies));
  }

  /** One more file: what it adds to the total, and when the longer prefix is still acceptable. */
  lemma NextFile(files: seq<RawFile>, i: nat, maxDecoded: int, maxFile: int)
    requires i < |files| && FilesOk(files[..i], maxDecoded, maxFile)
    ensures Total(files[..i + 1]) == Total(files[..i]) + |files[i].body.GetOr([])|
    ensures FilesOk(files[..i + 1], maxDecoded, maxFile) <==>
            && FileOk(files[i], maxFile) && Total(files[..i + 1]) <= maxDecoded
            && forall j :: 0 <= j < i ==> files[j].key != files[i].key
  {
    hide FileOk;
    var shorter, longer := files[..i], files[..i + 1];
    assert longer == shorter + [files[i]] && longer[..i] == shorter;
    if FilesOk(longer, maxDecoded, maxFile) {
      assert FileOk(longer[i], maxFile);
      forall j | 0 <= j < i ensures files[j].key != files[i].key {
        assert longer[j].key != longer[i].key;
      }
    }
    if FileOk(files[i], maxFile) && Total(longer) <= maxDecoded
       && (forall j :: 0 <= j < i ==> files[j].key != files[i].key) {
      forall k | 0 <= k < |longer| ensures FileOk(longer[k], maxFile) {
        assert k < i ==> longer[k] == shorter[k];
      }
      forall j, k | 0 <= j < k < |longer| ensures longer[j].key != longer[k].key {
        assert longer[j] == shorter[j] && (k < i ==> longer[k] == shorter[k]);
      }
    }
  }

  lemma SeenKeys(files: seq<RawFile>, i: nat, keys: seq<string>, bodies: map<string, Bytes>)
    requires i < |files| && Collected(files, i, keys, bodies)
    ensures files[i].key in bodies <==> exists j :: 0 <= j < i && files[j].key == files[i].key
  {
    if files[i].key in bodies {
      var j :| 0 <= j < |keys| && keys[j] == files[i].key;
      assert files[j].key == files[i].key;
    }
  }

  lemma CollectNext(files: seq<RawFile>, i: nat, keys: seq<string>, bodies: map<string, Bytes>)
    requires i < |files| && Collected(files, i, keys, bodies) && files[i].body.Some? && files[i].key !in bodies
    ensures Collected(files, i + 1, keys + [files[i].key], bodies[files[i].key := files[i].body.value])
  {
  }

  lemma CollectedFiles(files: seq<RawFile>, keys: seq<string>, bodies: map<string, Bytes>, maxDecoded: int,
                       maxFile: int)
    requires Collected(files, |files|, keys, bodies) && FilesOk(files, maxDecoded, maxFile)
    ensures forall i, j :: 0 <= i < j < |keys| ==> keys[i] != keys[j]
    ensures forall k :: k in keys <==> k in bodies
    ensures forall k :: k in bodies <==> exists i :: 0 <= i < |files| && files[i].key == k
    ensures forall i :: 0 <= i < |files| ==> files[i].key in bodies && files[i].body == Some(bodies[files[i].key])
  {
    hide FileOk, Total;
    forall k | k in bodies ensures exists i :: 0 <= i < |files| && files[i].key == k {
      var i :| 0 <= i < |keys| && keys[i] == k;
      assert files[i].key == k;
    }
  }

  /** A file that is unsafe, repeated, undecodable or too large spoils the package. */
  lemma SpoiledFiles(files: seq<RawFile>, i: nat, maxDecoded: int, maxFile: int)
    requires i < |files|
    requires !FileOk(files[i], maxFile) || exists j :: 0 <= j < i && files[j].key == files[i].key
    ensures !FilesOk(files, maxDecoded, maxFile)
  {
    hide FileOk, Total;
  }

  lemma TooMuch(files: seq<RawFile>, maxDecoded: int, maxFile: int, n: nat)
    requires n <= |files| && Total(files[..n]) > maxDecoded
    ensures !FilesOk(files, maxDecoded, maxFile)
  {
    hide FileOk;
    TotalGrows(files, n);
  }
}
