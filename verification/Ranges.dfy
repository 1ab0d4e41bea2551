/** Range requests on a stored object: reading the header, and slicing the stored stream. */
module Ranges {
  import opened Decimals
  import opened Streams
  import opened Wrappers

  const MAX_SAFE_INTEGER := 9007199254740991

  /** The first and last byte a response carries, and whether it is a partial response. */
  datatype Window = Window(start: int, end: int, partial: bool) {
    function Length(): int {
      end - start + 1
    }
  }

  const PREFIX := "bytes="

  predicate Safe(n: int) {
    -MAX_SAFE_INTEGER <= n <= MAX_SAFE_INTEGER
  }

  // ---------------------------------------------------------------- the header

  function DigitsIn(s: string): (n: nat)
    ensures n <= |s| && AllDigits(s[..n]) && (n < |s| ==> !IsDigit(s[n]))
  {
    if s == [] || !IsDigit(s[0]) then 0
    else
      var n := 1 + DigitsIn(s[1..]);
      assert s[..n] == [s[0]] + s[1..][..n - 1];
      n
  }

  /** The two texts around the dash, when the header has the one accepted form. */
  function Split(header: string): (parts: Option<(string, string)>)
    ensures parts.Some? ==> AllDigits(parts.value.0) && AllDigits(parts.value.1)
  {
    if !(PREFIX <= header) then None
    else
      var rest := header[|PREFIX|..];
      var n := DigitsIn(rest);
      if n == |rest| || rest[n] != '-' || !AllDigits(rest[n + 1..]) then None
      else Some((rest[..n], rest[n + 1..]))
  }

  /** The window a request gets on an object of the given size; none is an unsatisfiable range. */
  function Requested(header: Option<string>, size: nat): Option<Window> {
    if header.None? then Some(Window(0, size - 1, false))
    else
      var parts := Split(header.value);
      if parts.None? || (parts.value.0 == [] && parts.value.1 == []) then None
      else
        var (first, last) := parts.value;
        var start: int :=
          if first == [] then (if size < Number(last) then 0 else size - Number(last)) else Number(first);
        var end: int := if first != [] && last != [] then Number(last) else size - 1;
        if !Safe(start) || !Safe(end) || start < 0 || start >= size || end < start then None
        else Some(Window(start, if end < size - 1 then end else size - 1, true))
  }

  function Header(first: string, last: string): string {
    PREFIX + first + "-" + last
  }

  lemma {:induction false} DigitsStop(digits: string, rest: string)
    requires AllDigits(digits) && rest != [] && !IsDigit(rest[0])
    ensures DigitsIn(digits + rest) == |digits|
  {
    var s := digits + rest;
    if digits == [] {
      assert s == rest;
    } else {
      DigitsStop(digits[1..], rest);
      assert s[1..] == digits[1..] + rest;
    }
  }

  /** A header is taken apart exactly when it is two texts of digits around a dash, and into those. */
  lemma SplitExactly(header: string)
    ensures Split(header).Some? ==> header == Header(Split(header).value.0, Split(header).value.1)
    ensures forall first, last :: AllDigits(first) && AllDigits(last) && header == Header(first, last) ==>
                                    Split(header) == Some((first, last))
  {
    SplitIsHeader(header);
    forall first, last | AllDigits(first) && AllDigits(last) && header == Header(first, last)
      ensures Split(header) == Some((first, last))
    {
      HeaderIsSplit(first, last);
    }
  }

  lemma SplitIsHeader(header: string)
    ensures Split(header).Some? ==> header == Header(Split(header).value.0, Split(header).value.1)
  {
    if Split(header).Some? {
      var rest := header[|PREFIX|..];
      var n := DigitsIn(rest);
      assert rest == rest[..n] + "-" + rest[n + 1..];
      assert header == PREFIX + rest;
    }
  }

  lemma HeaderIsSplit(first: string, last: string)
    requires AllDigits(first) && AllDigits(last)
    ensures Split(Header(first, last)) == Some((first, last))
  {
    var rest := Header(first, last)[|PREFIX|..];
    assert rest == first + ("-" + last);
    DigitsStop(first, "-" + last);
    assert rest[..|first|] == first && rest[|first| + 1..] == last;
  }

  /**
    Section 14.1.2 of RFC 9110 for one range on a representation of the given size: a range from a
    first position is satisfiable if that position exists, a suffix if it asks for at least one byte.
   */
  ghost predicate Satisfiable(first: string, last: string, size: nat)
    requires AllDigits(first) && AllDigits(last)
  {
    if first != [] then Number(first) < size && (last == [] || Number(first) <= Number(last))
    else last != [] && Number(last) > 0 && size > 0
  }

  /**
    A range is served exactly when it is satisfiable and its last position is a safe integer: a
    larger last position, which the standard would clip, is refused. A served suffix is the last n
    bytes, or everything; a served first position starts there and is clipped at the end.
   */
  lemma ServedExactly(first: string, last: string, size: nat)
    requires AllDigits(first) && AllDigits(last) && size <= MAX_SAFE_INTEGER
    ensures Requested(Some(Header(first, last)), size).Some? <==>
            Satisfiable(first, last, size) && (first != [] && last != [] ==> Number(last) <= MAX_SAFE_INTEGER)
    ensures Requested(Some(Header(first, last)), size).Some? ==>
              var w := Requested(Some(Header(first, last)), size).value;
              && w.partial && 0 <= w.start <= w.end < size
              && (first == [] ==>
                  w.end == size - 1 && (w.Length() == Number(last) <= size || (w.start == 0 && Number(last) > size)))
              && (first != [] ==> w.start == Number(first))
              && (first != [] && last != [] ==> w.end == Number(last) || (w.end == size - 1 < Number(last)))
              && (last == [] ==> w.end == size - 1)
  {
    SplitExactly(Header(first, last));
  }

  /** On an object of one byte, "bytes=0-9007199254740992" is satisfiable and refused. */
  lemma LongRangeIsRefused()
    ensures var first, last := Decimal(0), Decimal(9007199254740992);
            Satisfiable(first, last, 1) && Requested(Some(Header(first, last)), 1) == None
  {
    hide Decimal;
    PositionIsRefused(0, MAX_SAFE_INTEGER + 1, 1);
  }

  lemma PositionIsRefused(start: nat, end: nat, size: nat)
    requires start < size <= MAX_SAFE_INTEGER < end
    ensures Satisfiable(Decimal(start), Decimal(end), size)
            && Requested(Some(Header(Decimal(start), Decimal(end))), size) == None
  {
    NumberOfDecimal(start);
    NumberOfDecimal(end);
    ServedExactly(Decimal(start), Decimal(end), size);
  }

  /** Only a header of the accepted form is served. */
  lemma ServedHeadersHaveTheForm(header: string, size: nat)
    requires Requested(Some(header), size).Some?
    ensures exists first, last ::
              && AllDigits(first) && AllDigits(last) && header == Header(first, last)
              && Header(first, last) == "bytes=" + first + "-" + last && (first != [] || last != [])
  {
    SplitExactly(header);
    var (first, last) := Split(header).value;
    assert header == Header(first, last);
  }

  /** The header that names the bytes from start to end is served as exactly that window. */
  lemma WrittenRangeIsServed(start: nat, end: nat, size: nat)
    requires start <= end < size <= MAX_SAFE_INTEGER
    ensures Requested(Some(Header(Decimal(start), Decimal(end))), size) == Some(Window(start, end, true))
  {
    NumberOfDecimal(start);
    NumberOfDecimal(end);
    ServedExactly(Decimal(start), Decimal(end), size);
  }

  // ---------------------------------------------------------------- the stream

  /** The part of a content inside positions from start up to end, both included. */
  function Part(content: Bytes, start: nat, end: int): Bytes {
    var stop := if end + 1 < |content| then end + 1 else |content|;
    if start < stop then content[start..stop] else []
  }

  /** The piece of a chunk that lies inside positions, when the chunk starts at an offset. */
  function Piece(chunk: Bytes, offset: nat, start: nat, end: int): Bytes {
    var from := if start < offset then 0 else start - offset;
    var to := if |chunk| < end - offset + 1 then |chunk| else end - offset + 1;
    if 0 <= from <= to <= |chunk| then chunk[from..to] else []
  }

  /** One more chunk adds to the part exactly the piece of it that lies inside the positions. */
  lemma PartNext(content: Bytes, chunk: Bytes, start: nat, end: int)
    requires start <= end
    ensures |content| + |chunk| > start && |content| <= end ==>
              Part(content + chunk, start, end) == Part(content, start, end) + Piece(chunk, |content|, start, end)
    ensures !(|content| + |chunk| > start && |content| <= end) ==>
              Part(content + chunk, start, end) == Part(content, start, end)
  {
    var all, stop := content + chunk, if end + 1 < |content| + |chunk| then end + 1 else |content| + |chunk|;
    if start < stop && |content| < stop {
      hide Piece;
      PieceInside(content, chunk, start, end);
      var from := if start < |content| then 0 else start - |content|;
      JoinedPart(content, chunk, if start < |content| then start else |content|, from, stop - |content|);
    } else if start < stop {
      assert all[start..stop] == content[start..stop];
    }
  }

  lemma PieceInside(content: Bytes, chunk: Bytes, start: nat, end: int)
    requires start <= end && |content| <= end && start < |content| + |chunk|
    ensures var from := if start < |content| then 0 else start - |content|;
            var to := if end + 1 < |content| + |chunk| then end + 1 - |content| else |chunk|;
            from <= to <= |chunk| && Piece(chunk, |content|, start, end) == chunk[from..to]
  {
  }

  lemma JoinedPart(content: Bytes, chunk: Bytes, start: nat, from: nat, to: nat)
    requires start <= |content| && from <= to <= |chunk| && (start < |content| ==> from == 0)
    ensures (content + chunk)[start + from..|content| + to] == content[start..] + chunk[from..to]
  {
  }

  /** Once the last position is reached the rest of the content does not matter. */
  lemma PartIsThere(content: Bytes, longer: Bytes, start: nat, end: int)
    requires content <= longer && end < |content|
    ensures Part(content, start, end) == Part(longer, start, end)
  {
  }

  /**
    Slices a stored stream. However the stream is cut into chunks, what comes out is the asked part
    of the content, and reading stops at the first chunk that reaches the last position.
   */
  method SliceStream(chunks: seq<Bytes>, start: nat, end: int) returns (out: seq<Bytes>, ghost read: nat)
    requires start <= end
    ensures Concat(out) == Part(Concat(chunks), start, end)
    ensures read <= |chunks| && (read < |chunks| ==> end < |Concat(chunks[..read])|)
    ensures read > 0 ==> |Concat(chunks[..read - 1])| <= end
  {
    out := [];
    var offset, i := 0, 0;
    assert chunks[..0] == [] && Concat(out) == Part(First(chunks, 0), start, end);
    hide Concat, Part, Piece, First;
    while i < |chunks|
      invariant i <= |chunks| && offset == |First(chunks, i)|
      invariant Concat(out) == Part(First(chunks, i), start, end)
      invariant i > 0 ==> |First(chunks, i - 1)| <= end
      invariant offset <= end || i == 0 || i == |chunks|
    {
      var chunk := chunks[i];
      var chunkEnd := offset + |chunk| - 1;
      SlicedNext(chunks, i, out, start, end);
      if chunkEnd >= start && offset <= end {
        out := out + [Piece(chunk, offset, start, end)];
      }
      offset := offset + |chunk|;
      i := i + 1;
      if offset > end {
        FirstIsPart(chunks, i);
        FirstIsPart(chunks, i - 1);
        PartIsThere(First(chunks, i), Concat(chunks), start, end);
        return out, i;
      }
    }
    FirstIsPart(chunks, i);
    if i > 0 {
      FirstIsPart(chunks, i - 1);
    }
    read := i;
  }

  /** What has come out after one more chunk. */
  lemma SlicedNext(chunks: seq<Bytes>, i: nat, out: seq<Bytes>, start: nat, end: int)
    requires i < |chunks| && start <= end && Concat(out) == Part(First(chunks, i), start, end)
    ensures var offset, chunk := |First(chunks, i)|, chunks[i];
            && |First(chunks, i + 1)| == offset + |chunk|
            && Part(First(chunks, i + 1), start, end) ==
               Concat(if offset + |chunk| - 1 >= start && offset <= end then out + [Piece(chunk, offset, start, end)]
                      else out)
  {
    hide Concat, Part, Piece, First;
    var chunk := chunks[i];
    ChunkNext(chunks, i);
    PartNext(First(chunks, i), chunk, start, end);
    ConcatNext(out, Piece(chunk, |First(chunks, i)|, start, end));
  }

  /** The content of the first chunks. */
  ghost function First(chunks: seq<Bytes>, n: nat): Bytes
    requires n <= |chunks|
  {
    Concat(chunks[..n])
  }

  lemma FirstIsPart(chunks: seq<Bytes>, n: nat)
    requires n <= |chunks|
    ensures First(chunks, n) == Concat(chunks[..n]) && First(chunks, n) <= Concat(chunks)
    ensures n == |chunks| ==> First(chunks, n) == Concat(chunks)
  {
    ConcatPrefix(chunks, n);
    hide Concat;
    assert chunks[..|chunks|] == chunks;
  }

  lemma ChunkNext(chunks: seq<Bytes>, i: nat)
    requires i < |chunks|
    ensures First(chunks, i + 1) == First(chunks, i) + chunks[i]
  {
    hide Concat;
    ConcatNext(chunks[..i], chunks[i]);
    assert chunks[..i + 1] == chunks[..i] + [chunks[i]];
  }

  /**
    Opens a download. The stream carries exactly the bytes of the window, as many as the length that
    is advertised, and a request without a range gets the whole content unsliced.
   */
  method Download(header: Option<string>, size: nat, chunks: seq<Bytes>) returns (r: Option<(Window, seq<Bytes>)>)
    requires |Concat(chunks)| == size <= MAX_SAFE_INTEGER
    ensures r.Some? <==> Requested(header, size).Some?
    ensures r.Some? ==>
              var (w, stream) := r.value;
              && Some(w) == Requested(header, size) && 0 <= w.start <= w.end + 1 <= size
              && Concat(stream) == Concat(chunks)[w.start..w.end + 1] && |Concat(stream)| == w.Length()
              && w.partial == header.Some?
              && (header.None? ==> stream == chunks)
  {
    var window := Requested(header, size);
    if window.None? {
      return None;
    }
    var w := window.value;
    if w.start != 0 || w.end != size - 1 {
      var out, _ := SliceStream(chunks, w.start, w.end);
      return Some((w, out));
    }
    assert Concat(chunks)[0..size] == Concat(chunks);
    return Some((w, chunks));
  }
}
