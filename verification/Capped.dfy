/** The capped body read: bounded however late its own cancellation lands. */
module Capped {
  import opened Wrappers
  import opened Lists
  import opened Utf8

  /** `chunk[:stop]`, where a negative stop counts from the end. */
  function Sliced(chunk: seq<Byte>, stop: int): seq<Byte> {
    if stop < 0 then chunk[..(if |chunk| + stop < 0 then 0 else |chunk| + stop)]
    else if stop > |chunk| then chunk
    else chunk[..stop]
  }

  datatype Untrusted = ContentEncodingRejected | ResponseTooLarge

  function Least(a: int, b: int): int { if a < b then a else b }

  function Total(chunks: seq<seq<Byte>>): nat { |Concat(chunks)| }

  /** `chunks` is what the stream would yield. Once `cancel()` is called the loop still runs for up to
      `lag` further chunks before the cancellation is delivered at an await. `peak` is the largest the
      buffer ever was. */
  method Read(encoding: Option<string>, chunks: seq<seq<Byte>>, maxBytes: nat, lag: nat)
    returns (r: Result<seq<Byte>, Untrusted>, peak: nat)
    requires maxBytes >= 1
    ensures r ==
      if encoding.Some? then Err(ContentEncodingRejected)
      else if Total(chunks) <= maxBytes then Ok(Concat(chunks))
      else Err(ResponseTooLarge)
    ensures peak == if encoding.Some? then 0 else Least(Total(chunks), maxBytes + 1)
  {
    if encoding.Some? {
      return Err(ContentEncodingRejected), 0;
    }
    var body: seq<Byte> := [];
    var cancelled := false;
    var late := 0;
    var i := 0;
    peak := 0;
    while i < |chunks| && !(cancelled && late >= lag)
      invariant 0 <= i <= |chunks|
      invariant Total(chunks[..i]) <= Total(chunks)
      invariant body == Concat(chunks[..i])[..Least(Total(chunks[..i]), maxBytes + 1)]
      invariant cancelled <==> |body| > maxBytes
      invariant peak == |body|
    {
      Appended(chunks, i);
      TotalGrows(chunks, i + 1);
      CappedAppend(Concat(chunks[..i]), chunks[i], maxBytes);
      if cancelled { late := late + 1; }
      body := body + Sliced(chunks[i], maxBytes - |body| + 1);
      if |body| > maxBytes { cancelled := true; }
      peak := |body|;
      i := i + 1;
    }
    assert chunks[..|chunks|] == chunks;
    if cancelled {
      return Err(ResponseTooLarge), peak;
    }
    assert body == Concat(chunks);
    return Ok(body), peak;
  }

  lemma {:induction false} ConcatSnoc(parts: seq<seq<Byte>>, last: seq<Byte>)
    ensures Concat(parts + [last]) == Concat(parts) + last
  {
    if parts == [] {
      assert [last][1..] == [];
    } else {
      ConcatSnoc(parts[1..], last);
      assert (parts + [last])[1..] == parts[1..] + [last];
    }
  }

  lemma {:induction false} Appended(chunks: seq<seq<Byte>>, i: nat)
    requires i < |chunks|
    ensures Concat(chunks[..i + 1]) == Concat(chunks[..i]) + chunks[i]
  {
    assert chunks[..i + 1] == chunks[..i] + [chunks[i]];
    ConcatSnoc(chunks[..i], chunks[i]);
  }

  lemma {:induction false} TotalGrows(chunks: seq<seq<Byte>>, i: nat)
    requires i <= |chunks|
    ensures Total(chunks[..i]) <= Total(chunks)
    decreases |chunks| - i
  {
    if i == |chunks| {
      assert chunks[..i] == chunks;
    } else {
      Appended(chunks, i);
      TotalGrows(chunks, i + 1);
    }
  }

  /** Appending a chunk sliced to what is left keeps the capped prefix of everything read. */
  lemma {:induction false} CappedAppend(read: seq<Byte>, chunk: seq<Byte>, maxBytes: nat)
    ensures var body := read[..Least(|read|, maxBytes + 1)];
            body + Sliced(chunk, maxBytes - |body| + 1)
              == (read + chunk)[..Least(|read + chunk|, maxBytes + 1)]
  {
  }
}
