/** How the files of a backup point are named. */
module PointFiles {
  import opened CodeUnits
  import opened Decimals

  const MARKER := "COMMITTED.json"
  const MANIFEST := "manifest.enc.json"

  const CHUNKS := "chunks/"
  const OBJECTS := "objects/"

  function ChunkKey(number: nat): string {
    CHUNKS + Padded(number, 6) + ".json.enc"
  }

  function ArtifactId(number: nat): string {
    Padded(number, 6)
  }

  function ObjectKey(artifactId: string, number: nat): string {
    OBJECTS + Join(artifactId, '/', Padded(number, 6) + ".bin.enc")
  }

  predicate IsChunkKey(s: string) {
    |s| == 22 && s[..7] == CHUNKS && AllDigits(s[7..13]) && s[13..] == ".json.enc"
  }

  predicate IsObjectKey(s: string) {
    |s| == 29 && s[..8] == OBJECTS && AllDigits(s[8..14]) && s[14] == '/' && AllDigits(s[15..21])
      && s[21..] == ".bin.enc"
  }

  /** The keys an import accepts. */
  predicate IsSafeKey(s: string) {
    s == MANIFEST || s == MARKER || IsChunkKey(s) || IsObjectKey(s)
  }

  /** The four forms of a key that an import accepts, with six digits wherever there is a number. */
  lemma SafeKeysExactly(s: string)
    ensures IsSafeKey(s) <==>
            || s == "manifest.enc.json" || s == "COMMITTED.json"
            || (exists n :: IsSixDigits(n) && s == "chunks/" + n + ".json.enc")
            || (exists a, n :: IsSixDigits(a) && IsSixDigits(n) && s == "objects/" + a + "/" + n + ".bin.enc")
  {
    if IsChunkKey(s) {
      assert IsSixDigits(s[7..13]) && s == "chunks/" + s[7..13] + ".json.enc";
    }
    if IsObjectKey(s) {
      assert IsSixDigits(s[8..14]) && IsSixDigits(s[15..21])
             && s == "objects/" + s[8..14] + "/" + s[15..21] + ".bin.enc";
    }
    forall n | IsSixDigits(n) && s == "chunks/" + n + ".json.enc" ensures IsChunkKey(s) {
      assert s[..7] == "chunks/" && s[7..13] == n && s[13..] == ".json.enc";
    }
    forall a, n | IsSixDigits(a) && IsSixDigits(n) && s == "objects/" + a + "/" + n + ".bin.enc"
      ensures IsObjectKey(s) {
      assert s[..8] == "objects/" && s[8..14] == a && s[14] == '/' && s[15..21] == n && s[21..] == ".bin.enc";
    }
  }

  predicate IsSixDigits(s: string) {
    |s| == 6 && forall i :: 0 <= i < 6 ==> '0' <= s[i] <= '9'
  }

  lemma ChunkKeysAreDistinct(m: nat, n: nat)
    ensures ChunkKey(m) == ChunkKey(n) ==> m == n
  {
    NumberOfPadded(m, 6);
    NumberOfPadded(n, 6);
    assert ChunkKey(m)[7..|ChunkKey(m)| - 9] == Padded(m, 6) && ChunkKey(n)[7..|ChunkKey(n)| - 9] == Padded(n, 6);
  }

  lemma ArtifactIdsAreDistinct(m: nat, n: nat)
    ensures ArtifactId(m) == ArtifactId(n) ==> m == n
  {
    NumberOfPadded(m, 6);
    NumberOfPadded(n, 6);
  }

  lemma ObjectKeysAreDistinct(a: string, m: nat, b: string, n: nat)
    requires AllDigits(a) && AllDigits(b)
    ensures ObjectKey(a, m) == ObjectKey(b, n) ==> a == b && m == n
  {
    NumberOfPadded(m, 6);
    NumberOfPadded(n, 6);
    var x, y := Padded(m, 6) + ".bin.enc", Padded(n, 6) + ".bin.enc";
    JoinedOrder(a, x, b, y, '/');
    assert ObjectKey(a, m)[8..] == Join(a, '/', x) && ObjectKey(b, n)[8..] == Join(b, '/', y);
    assert x[..|x| - 8] == Padded(m, 6) && y[..|y| - 8] == Padded(n, 6);
  }

  /** All files a backup writes sort after the commit marker, and none is the manifest. */
  lemma KeysSortAfterMarker(number: nat, artifactId: string)
    ensures Less(MARKER, MANIFEST) && Less(MARKER, ChunkKey(number)) && Less(MARKER, ObjectKey(artifactId, number))
    ensures ChunkKey(number) != MANIFEST && ObjectKey(artifactId, number) != MANIFEST
    ensures ChunkKey(number) != ObjectKey(artifactId, number)
  {
    assert MARKER[0] == 'C' && MANIFEST[0] == 'm' && ChunkKey(number)[0] == 'c'
           && ObjectKey(artifactId, number)[0] == 'o';
  }

  lemma {:induction false} DecimalLength(n: nat, width: nat, bound: nat)
    requires bound == Power10(width) && width > 0
    ensures |Decimal(n)| <= width <==> n < bound
    decreases width
  {
    if width > 1 && n >= 10 {
      DecimalLength(n / 10, width - 1, Power10(width - 1));
    }
  }

  function Power10(n: nat): (p: nat)
    ensures p > 0
  {
    if n == 0 then 1 else 10 * Power10(n - 1)
  }

  /** A backup's chunks can be imported again exactly up to the last six-digit number. */
  lemma ChunkKeysAreImportable(number: nat)
    ensures IsSafeKey(ChunkKey(number)) <==> number < 1_000_000
  {
    assert Power10(6) == 1_000_000;
    DecimalLength(number, 6, 1_000_000);
    var key, digits := ChunkKey(number), Padded(number, 6);
    assert |digits| == 6 ==> key[..7] == CHUNKS && key[7..13] == digits && key[13..] == ".json.enc";
    assert key[0] == 'c';
  }

  lemma ObjectKeysAreImportable(artifact: nat, number: nat)
    ensures IsSafeKey(ObjectKey(ArtifactId(artifact), number)) <==> artifact < 1_000_000 && number < 1_000_000
  {
    assert Power10(6) == 1_000_000;
    DecimalLength(artifact, 6, 1_000_000);
    DecimalLength(number, 6, 1_000_000);
    var key, a, digits := ObjectKey(ArtifactId(artifact), number), ArtifactId(artifact), Padded(number, 6);
    assert |a| == |digits| == 6 ==>
             key[..8] == OBJECTS && key[8..14] == a && key[14] == '/' && key[15..21] == digits
               && key[21..] == ".bin.enc";
    assert key[0] == 'o';
  }
}
