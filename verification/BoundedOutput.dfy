/** A child process's output, kept whole up to a limit and without its middle beyond it. */
module BoundedOutput {

  type Bytes = seq<bv8>

  const HALF: nat := 4 * 1024 * 1024

  /** The bytes of a list of chunks. */
  function Flat(chunks: seq<Bytes>): Bytes {
    if chunks == [] then [] else chunks[0] + Flat(chunks[1..])
  }

  lemma {:induction false} FlatAppend(chunks: seq<Bytes>, chunk: Bytes)
    ensures Flat(chunks + [chunk]) == Flat(chunks) + chunk
  {
    if chunks == [] {
      assert [] + [chunk] == [chunk] && [chunk][1..] == [];
      assert chunk + [] == [] + chunk;
    } else {
      assert (chunks + [chunk])[1..] == chunks[1..] + [chunk];
      FlatAppend(chunks[1..], chunk);
    }
  }

  function Min(a: int, b: int): int {
    if a < b then a else b
  }

  /** The first bytes of a stream, up to half the limit. */
  function First(stream: Bytes): Bytes {
    stream[..Min(|stream|, HALF)]
  }

  /** Of the rest, the last bytes, up to half the limit. */
  function Last(stream: Bytes): Bytes {
    stream[|stream| - Min(|stream| - |First(stream)|, HALF)..]
  }

  function Shown(stream: Bytes, marker: Bytes): Bytes {
    First(stream) + (if |stream| > 2 * HALF then marker else []) + Last(stream)
  }

  /** Up to the limit nothing is missing; beyond it the first and the last half are there, the marker between them. */
  lemma ShownIsWhole(stream: Bytes, marker: Bytes)
    ensures |stream| <= 2 * HALF ==> Shown(stream, marker) == stream
    ensures |stream| > 2 * HALF ==>
              && |Shown(stream, marker)| == 2 * HALF + |marker|
              && Shown(stream, marker)[..HALF] == stream[..HALF]
              && Shown(stream, marker)[HALF..HALF + |marker|] == marker
              && Shown(stream, marker)[HALF + |marker|..] == stream[|stream| - HALF..]
  {
    if |stream| <= 2 * HALF {
      assert First(stream) + [] == First(stream);
      assert First(stream) + Last(stream) == stream;
    }
  }

  class Output {
    var head: seq<Bytes>
    var tail: seq<Bytes>
    var headBytes: nat
    var tailBytes: nat
    var total: nat
    /** Everything added so far. */
    ghost var stream: Bytes

    ghost predicate Valid()
      reads this
    {
      && total == |stream|
      && Flat(head) == First(stream) && headBytes == |Flat(head)|
      && Flat(tail) == Last(stream) && tailBytes == |Flat(tail)|
    }

    constructor ()
      ensures Valid() && stream == []
    {
      head, tail, headBytes, tailBytes, total, stream := [], [], 0, 0, 0, [];
    }

    method Add(chunk: Bytes)
      requires Valid()
      modifies this
      ensures Valid() && stream == old(stream) + chunk
    {
      hide Flat, First, Last, IsEnd;
      ghost var was := stream;
      stream := was + chunk;
      total := total + |chunk|;
      var keep := Min(HALF - headBytes, |chunk|);
      HeadGrows(was, chunk);
      if keep > 0 {
        FlatAppend(head, chunk[..keep]);
        head := head + [chunk[..keep]];
        headBytes := headBytes + keep;
      }
      if keep == |chunk| {
        return;
      }
      FlatAppend(tail, chunk[keep..]);
      TailGrows(was, chunk);
      LastFits(stream);
      tail := tail + [chunk[keep..]];
      tailBytes := tailBytes + |chunk| - keep;
      while tailBytes > HALF
        invariant total == |stream| && stream == was + chunk && Flat(head) == First(stream) && headBytes == |Flat(head)|
        invariant IsEnd(stream, Flat(tail), tailBytes)
        invariant tailBytes == |Last(stream)| || (tailBytes >= HALF && |Last(stream)| == HALF)
        decreases |tail|, tailBytes
      {
        EndIsThere(stream, tail, tailBytes);
        var first := tail[0];
        var excess := tailBytes - HALF;
        if |first| <= excess {
          DropsFirst(tail);
          EndShrinks(stream, Flat(tail), tailBytes, |first|);
          tail := tail[1..];
          tailBytes := tailBytes - |first|;
        } else {
          CutsFirst(tail, excess);
          EndShrinks(stream, Flat(tail), tailBytes, excess);
          tail := tail[0 := first[excess..]];
          tailBytes := tailBytes - excess;
        }
      }
      LastIsEnd(stream, Flat(tail), tailBytes);
    }

    /** Everything shown, as bytes. */
    method Text(marker: Bytes) returns (text: Bytes)
      requires Valid()
      ensures text == Shown(stream, marker)
    {
      var between := if total > HALF * 2 then [marker] else [];
      FlatConcat(head + between, tail);
      FlatConcat(head, between);
      OneChunk(marker);
      text := Flat(head + between + tail);
    }
  }

  /** These are the last `n` bytes of the stream. */
  predicate IsEnd(stream: Bytes, end: Bytes, n: nat) {
    n <= |stream| && end == stream[|stream| - n..]
  }

  lemma EndIsThere(stream: Bytes, chunks: seq<Bytes>, n: nat)
    requires IsEnd(stream, Flat(chunks), n) && n > 0
    ensures chunks != [] && |Flat(chunks)| == n
  {
  }

  lemma LastFits(stream: Bytes)
    ensures |Last(stream)| <= HALF
  {
  }

  lemma EndShrinks(stream: Bytes, end: Bytes, n: nat, k: nat)
    requires IsEnd(stream, end, n) && k <= n
    ensures k <= |end| && IsEnd(stream, end[k..], n - k)
  {
  }

  lemma LastIsEnd(stream: Bytes, end: Bytes, n: nat)
    requires IsEnd(stream, end, n) && n == |Last(stream)|
    ensures end == Last(stream)
  {
  }

  lemma DropsFirst(chunks: seq<Bytes>)
    requires chunks != []
    ensures |chunks[0]| <= |Flat(chunks)| && Flat(chunks[1..]) == Flat(chunks)[|chunks[0]|..]
  {
  }

  lemma CutsFirst(chunks: seq<Bytes>, k: nat)
    requires chunks != [] && k <= |chunks[0]|
    ensures k <= |Flat(chunks)| && Flat(chunks[0 := chunks[0][k..]]) == Flat(chunks)[k..]
  {
    assert chunks[0 := chunks[0][k..]][1..] == chunks[1..];
  }

  lemma {:induction false} FlatConcat(a: seq<Bytes>, b: seq<Bytes>)
    ensures Flat(a + b) == Flat(a) + Flat(b)
  {
    if a == [] {
      assert a + b == b;
    } else {
      assert (a + b)[1..] == a[1..] + b;
      FlatConcat(a[1..], b);
    }
  }

  lemma OneChunk(chunk: Bytes)
    ensures Flat([chunk]) == chunk
  {
    assert [chunk][1..] == [];
  }

  /** A chunk fills the head first; what fits there leaves the tail as it is. */
  lemma HeadGrows(was: Bytes, chunk: Bytes)
    ensures var keep := Min(HALF - |First(was)|, |chunk|);
            && keep >= 0 && First(was + chunk) == First(was) + chunk[..keep]
            && (keep == |chunk| ==> Last(was + chunk) == Last(was))
  {
    var keep := Min(HALF - |First(was)|, |chunk|);
    if keep == |chunk| && |was| >= HALF {
      assert was + chunk == was;
    }
  }

  lemma TailGrows(was: Bytes, chunk: Bytes)
    requires Min(HALF - |First(was)|, |chunk|) < |chunk|
    ensures var keep := Min(HALF - |First(was)|, |chunk|);
            var more := |Last(was)| + |chunk| - keep;
            && keep >= 0 && IsEnd(was + chunk, Last(was) + chunk[keep..], more)
            && (more == |Last(was + chunk)| || (more >= HALF && |Last(was + chunk)| == HALF))
  {
  }

  /** After any chunks, the text is the whole output up to the limit, and its two ends around the marker beyond it. */
  method Capture(chunks: seq<Bytes>, marker: Bytes) returns (text: Bytes)
    ensures text == Shown(Flat(chunks), marker)
  {
    var output := new Output();
    for i := 0 to |chunks|
      invariant output.Valid() && output.stream == Flat(chunks[..i])
    {
      assert chunks[..i + 1] == chunks[..i] + [chunks[i]];
      FlatAppend(chunks[..i], chunks[i]);
      output.Add(chunks[i]);
    }
    assert chunks[..|chunks|] == chunks;
    text := output.Text(marker);
  }
}
