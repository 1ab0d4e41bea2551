/** The parts of an upload: how many there are, how long each is, and how they are received and read. */
module UploadParts {
  import opened Streams

  const CHUNK_BYTES := 8 * 1024 * 1024
  const MAX_PARTS := 10000

  /** Section 5.2 of the PNG specification. */
  const PNG_SIGNATURE: Bytes := [0x89, 0x50, 0x4e, 0x47, 0x0d, 0x0a, 0x1a, 0x0a]

  /** The number of parts of an object: its length in chunks, rounded up. */
  function PartCount(bytes: nat): nat {
    (bytes + CHUNK_BYTES - 1) / CHUNK_BYTES
  }

  /** The length the part of the given number must have. */
  function PartBytes(bytes: nat, number: int): int {
    if number == PartCount(bytes) then bytes - (number - 1) * CHUNK_BYTES else CHUNK_BYTES
  }

  function SumOfParts(bytes: nat, count: nat): int {
    if count == 0 then 0 else SumOfParts(bytes, count - 1) + PartBytes(bytes, count)
  }

  lemma {:induction false} SumOfFullParts(bytes: nat, count: nat)
    requires count < PartCount(bytes) || count == 0
    ensures SumOfParts(bytes, count) == count * CHUNK_BYTES
  {
    if count > 0 {
      SumOfFullParts(bytes, count - 1);
    }
  }

  /** Every part has between one byte and a full chunk, and together they are the whole object. */
  lemma PartsCoverObject(bytes: nat)
    ensures forall number :: 1 <= number <= PartCount(bytes) ==> 1 <= PartBytes(bytes, number) <= CHUNK_BYTES
    ensures SumOfParts(bytes, PartCount(bytes)) == bytes
  {
    if bytes > 0 {
      SumOfFullParts(bytes, PartCount(bytes) - 1);
    }
  }

  // ---------------------------------------------------------------- receiving one part

  datatype Receipt = Received(body: Bytes) | TooLong | TooShort

  /**
    Collects the body of a part, however the request is cut into chunks. Reading stops at the first
    chunk that makes the body too long.
   */
  method ReceivePart(source: seq<Bytes>, expected: nat) returns (r: Receipt)
    ensures r.Received? <==> |Concat(source)| == expected
    ensures r.Received? ==> r.body == Concat(source)
    ensures r.TooLong? <==> |Concat(source)| > expected
  {
    var body: Bytes := [];
    assert source[..0] == [];
    for i := 0 to |source|
      invariant body == Concat(source[..i]) && |body| <= expected
    {
      assert source[..i + 1] == source[..i] + [source[i]];
      ConcatNext(source[..i], source[i]);
      body := body + source[i];
      if |body| > expected {
        ConcatPrefix(source, i + 1);
        return TooLong;
      }
    }
    assert source[..|source|] == source;
    r := if |body| != expected then TooShort else Received(body);
  }

  // ---------------------------------------------------------------- reading the parts back

  /** The first bytes of a content, as many as a signature has. */
  function Opening(content: Bytes): Bytes {
    if |content| < |PNG_SIGNATURE| then content else content[..|PNG_SIGNATURE|]
  }

  /** All streams, one after the other. */
  function ConcatAll(streams: seq<seq<Bytes>>): Bytes {
    if streams == [] then [] else ConcatAll(streams[..|streams| - 1]) + Concat(streams[|streams| - 1])
  }

  /** The signature after one more chunk: as much of the chunk as is still missing. */
  function Extended(signature: Bytes, chunk: Bytes): Bytes {
    var missing := |PNG_SIGNATURE| - |signature|;
    if missing <= 0 then signature else signature + (if |chunk| < missing then chunk else chunk[..missing])
  }

  lemma OpeningGrows(content: Bytes, chunk: Bytes)
    ensures Opening(content + chunk) == Extended(Opening(content), chunk)
  {
  }

  /**
    Passes the streams of all parts through, chunk by chunk, while counting bytes, hashing and
    collecting the signature. Whatever the chunks, what goes through is the parts in order.
   */
  method PassThrough(streams: seq<seq<Bytes>>) returns (out: seq<Bytes>, bytes: nat, hashed: Bytes, signature: Bytes)
    ensures Concat(out) == hashed == ConcatAll(streams)
    ensures bytes == |ConcatAll(streams)| && signature == Opening(ConcatAll(streams))
  {
    out, bytes, hashed, signature := [], 0, [], [];
    assert streams[..0] == [];
    for i := 0 to |streams|
      invariant hashed == ConcatAll(streams[..i]) && Concat(out) == hashed
      invariant bytes == |hashed| && signature == Opening(hashed)
    {
      hide Opening;
      out, bytes, hashed, signature := PassOne(streams[i], out, bytes, hashed, signature);
      assert streams[..i + 1][..i] == streams[..i];
    }
    assert streams[..|streams|] == streams;
  }

  /** Passes one more stream through. */
  method PassOne(stream: seq<Bytes>, out0: seq<Bytes>, bytes0: nat, hashed0: Bytes, signature0: Bytes)
    returns (out: seq<Bytes>, bytes: nat, hashed: Bytes, signature: Bytes)
    requires Concat(out0) == hashed0 && bytes0 == |hashed0| && signature0 == Opening(hashed0)
    ensures hashed == hashed0 + Concat(stream) && Concat(out) == hashed
    ensures bytes == |hashed| && signature == Opening(hashed)
  {
    out, bytes, hashed, signature := out0, bytes0, hashed0, signature0;
    assert stream[..0] == [] && hashed0 + Concat(stream[..0]) == hashed0;
    hide Opening, Concat, Extended;
    for j := 0 to |stream|
      invariant hashed == hashed0 + Concat(stream[..j]) && Concat(out) == hashed
      invariant bytes == |hashed| && signature == Opening(hashed)
    {
      var chunk := stream[j];
      OpeningGrows(hashed, chunk);
      ConcatNext(out, chunk);
      ConcatSoFar(hashed0, stream, j);
      signature := Extended(signature, chunk);
      bytes := bytes + |chunk|;
      hashed := hashed + chunk;
      out := out + [chunk];
    }
    assert stream[..|stream|] == stream;
  }

  lemma ConcatSoFar(before: Bytes, stream: seq<Bytes>, j: nat)
    requires j < |stream|
    ensures before + Concat(stream[..j + 1]) == before + Concat(stream[..j]) + stream[j]
  {
    hide Concat;
    assert stream[..j + 1] == stream[..j] + [stream[j]];
    ConcatNext(stream[..j], stream[j]);
    assert before + (Concat(stream[..j]) + stream[j]) == before + Concat(stream[..j]) + stream[j];
  }
}
