/** Byte strings that travel in chunks. */
module Streams {

  type Bytes = seq<nat>

  function Concat(chunks: seq<Bytes>): Bytes {
    if chunks == [] then [] else Concat(chunks[..|chunks| - 1]) + chunks[|chunks| - 1]
  }

  lemma {:induction false} ConcatPrefix(chunks: seq<Bytes>, n: nat)
    requires n <= |chunks|
    ensures Concat(chunks[..n]) <= Concat(chunks)
    decreases |chunks|
  {
    if n < |chunks| {
      ConcatPrefix(chunks[..|chunks| - 1], n);
      assert chunks[..|chunks| - 1][..n] == chunks[..n];
    } else {
      assert chunks[..n] == chunks;
    }
  }

  lemma ConcatNext(chunks: seq<Bytes>, chunk: Bytes)
    ensures Concat(chunks + [chunk]) == Concat(chunks) + chunk
  {
    assert (chunks + [chunk])[..|chunks|] == chunks;
  }

  lemma {:induction false} ConcatJoins(first: seq<Bytes>, second: seq<Bytes>)
    ensures Concat(first + second) == Concat(first) + Concat(second)
    decreases |second|
  {
    if second == [] {
      assert first + second == first;
    } else {
      var rest, last := second[..|second| - 1], second[|second| - 1];
      ConcatJoins(first, rest);
      ConcatNext(first + rest, last);
      ConcatNext(rest, last);
      hide Concat;
      assert second == rest + [last] && first + second == first + rest + [last];
    }
  }

  /** A body cut into pieces of the given size, the last one as long as is left; never no piece. */
  function Chunks(body: Bytes, size: nat): seq<Bytes>
    requires size > 0
    decreases |body|
  {
    if |body| <= size then [body] else [body[..size]] + Chunks(body[size..], size)
  }

  lemma ConcatOne(chunk: Bytes)
    ensures Concat([chunk]) == chunk
  {
    assert [chunk][..0] == [];
  }

  /** Cutting loses nothing, and only an empty body has an empty piece. */
  lemma {:induction false} ChunksJoin(body: Bytes, size: nat)
    requires size > 0
    ensures Concat(Chunks(body, size)) == body && Chunks(body, size) != []
    ensures forall c :: c in Chunks(body, size) ==> |c| <= size && (c == [] ==> body == [])
    decreases |body|
  {
    hide Concat;
    if |body| <= size {
      ConcatOne(body);
    } else {
      var first, rest := body[..size], Chunks(body[size..], size);
      ChunksJoin(body[size..], size);
      ConcatOne(first);
      ConcatJoins([first], rest);
      assert first + body[size..] == body;
      assert Chunks(body, size) == [first] + rest;
      hide Chunks;
    }
  }
}
