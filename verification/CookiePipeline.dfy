/** From the raw header to the token a request proves: `extract`, then `verify` up to the keyring. */
module CookiePipeline {
  import opened Wrappers
  import opened Lists
  import opened PercentCoding
  import opened SignedCookie
  import opened CookieChunks
  import opened CookieHeader
  import Utf8
  import Base64

  datatype Refusal = Absent | Malformed(malformed: CookieChunks.Malformed) | Flawed(flaw: Flaw) | CrossSite

  /** The steps of `verify` up to and including the keyring, in their pinned order. `allows` is the CSRF policy
      on this request's own facts, as a function of the token. */
  function Proven(pairs: seq<Pair>, base: string, allows: string -> bool, hmac: Hmac, secrets: seq<string>)
    : Result<string, Refusal>
  {
    match ResolveNamedCookie(pairs, base)
    case Err(e) => Err(Malformed(e))
    case Ok(named) => ProvenValue(named.value, allows, hmac, secrets)
  }

  function ProvenValue(value: string, allows: string -> bool, hmac: Hmac, secrets: seq<string>)
    : Result<string, Refusal>
  {
    match ParseSignedValue(value)
    case Err(f) => Err(Flawed(f))
    case Ok(parsed) =>
      if !allows(parsed.token) then Err(CrossSite)
      else if Accepts(hmac, secrets, parsed.token, parsed.signature) then Ok(parsed.token)
      else Err(Flawed(BadSignature))
  }

  function Believed(lines: seq<string>, base: string, allows: string -> bool, hmac: Hmac, secrets: seq<string>)
    : Result<string, Refusal>
  {
    match Extract(lines, base)
    case None => Err(Absent)
    case Some(pairs) => Proven(pairs, base, allows, hmac, secrets)
  }

  function ReadablePairs(lines: seq<string>, base: string): seq<Pair> {
    Collect(PickReadable(base), Pairs(Join(lines)))
  }

  // ---- which pairs bring which value

  ghost predicate CutUp(pairs: seq<Pair>, base: string, value: string, pieces: seq<string>) {
    1 <= |pieces| <= 100 && multiset(pairs) == multiset(Delivered(base, pieces)) && value == Concat(pieces)
  }

  /** The one whole cookie, or 1 to 100 pieces of it in any order, and nothing else. */
  ghost predicate Brings(pairs: seq<Pair>, base: string, value: string) {
    pairs == [Pair(base, value)] || exists pieces: seq<string> :: CutUp(pairs, base, value, pieces)
  }

  ghost predicate AllAcceptable(pairs: seq<Pair>, base: string) {
    forall i :: 0 <= i < |pairs| ==> Acceptable(base, pairs[i].name)
  }

  /** Of pairs under names that are read, a value within the cap is resolved exactly when they bring it. */
  lemma {:induction false} ResolvedExactly(pairs: seq<Pair>, base: string, value: string)
    requires AllAcceptable(pairs, base) && |value| <= CookieChunks.MAX_COOKIE_BYTES
    ensures ResolveNamedCookie(pairs, base) == Ok(Pair(base, value)) <==> Brings(pairs, base, value)
  {
    ResolveAcceptsExactly(pairs, base, value);
    if IsWhole(pairs, base, value) { WholeIsAlone(pairs, base, value); }
    forall pieces: seq<string> | IsCutInto(pairs, base, pieces) && value == Concat(pieces)
      ensures CutUp(pairs, base, value, pieces)
    {
      ChunksAreDelivered(pairs, base, pieces);
    }
    if pairs == [Pair(base, value)] { AloneIsWhole(base, value); }
    forall pieces: seq<string> | CutUp(pairs, base, value, pieces)
      ensures ResolveNamedCookie(pairs, base) == Ok(Pair(base, value))
    {
      ReassemblyRoundTrip(pairs, base, pieces);
    }
  }

  lemma {:induction false} AloneIsWhole(base: string, value: string)
    ensures IsWhole([Pair(base, value)], base, value)
  {
    CollectOne(PickWhole(base), Pair(base, value));
    CollectOne(PickChunk(base), Pair(base, value));
    AcceptableIsBaseXorChunk(base, base);
  }

  /** Each acceptable pair is picked as whole or as a chunk, so as many are picked as there are. */
  lemma {:induction false} PickedApart(pairs: seq<Pair>, base: string)
    requires AllAcceptable(pairs, base)
    ensures |Whole(pairs, base)| + |Chunks(pairs, base)| == |pairs|
  {
    if pairs != [] {
      AcceptableIsBaseXorChunk(base, pairs[0].name);
      assert AllAcceptable(pairs[1..], base);
      PickedApart(pairs[1..], base);
    }
  }

  lemma {:induction false} WholeIsAlone(pairs: seq<Pair>, base: string, value: string)
    requires AllAcceptable(pairs, base) && IsWhole(pairs, base, value)
    ensures pairs == [Pair(base, value)]
  {
    PickedApart(pairs, base);
    assert |pairs| == 1 && pairs == [pairs[0]];
    CollectOne(PickWhole(base), pairs[0]);
  }

  /** Back from a chunk to the pair that carried it. */
  function Carrier(base: string): Chunk -> Option<Pair> {
    (c: Chunk) => Some(Pair(ChunkName(base, c.index), c.value))
  }

  lemma {:induction false} CarriersOfChunks(pairs: seq<Pair>, base: string)
    requires AllAcceptable(pairs, base) && Whole(pairs, base) == []
    ensures Collect(Carrier(base), Chunks(pairs, base)) == pairs
    ensures forall c :: c in Chunks(pairs, base) ==> c.index < MAX_CHUNKS
  {
    if pairs != [] {
      var p, rest := pairs[0], pairs[1..];
      AcceptableIsBaseXorChunk(base, p.name);
      assert AllAcceptable(rest, base);
      CarriersOfChunks(rest, base);
      var i :| 0 <= i < MAX_CHUNKS && p.name == ChunkName(base, i);
      ChunkNameIsChunk(base, i);
      assert Chunks(pairs, base) == [Chunk(i, p.value)] + Chunks(rest, base);
      assert ([Chunk(i, p.value)] + Chunks(rest, base))[1..] == Chunks(rest, base);
      assert pairs == [p] + rest;
    }
  }

  lemma {:induction false} CarriersOfNumbered(base: string, pieces: seq<string>)
    ensures Collect(Carrier(base), Numbered(pieces)) == Delivered(base, pieces)
  {
    if pieces != [] {
      var n := |pieces| - 1;
      CarriersOfNumbered(base, pieces[..n]);
      assert Numbered(pieces) == Numbered(pieces[..n]) + [Chunk(n, pieces[n])];
      assert Delivered(base, pieces) == Delivered(base, pieces[..n]) + [Pair(ChunkName(base, n), pieces[n])];
      CollectConcat(Carrier(base), Numbered(pieces[..n]), [Chunk(n, pieces[n])]);
      CollectOne(Carrier(base), Chunk(n, pieces[n]));
    }
  }

  lemma {:induction false} ChunksAreDelivered(pairs: seq<Pair>, base: string, pieces: seq<string>)
    requires AllAcceptable(pairs, base) && IsCutInto(pairs, base, pieces)
    ensures 1 <= |pieces| <= MAX_CHUNKS && multiset(pairs) == multiset(Delivered(base, pieces))
  {
    CarriersOfChunks(pairs, base);
    CarriersOfNumbered(base, pieces);
    CollectPermutes(Carrier(base), Chunks(pairs, base), Numbered(pieces));
    var last := Numbered(pieces)[|pieces| - 1];
    assert last in multiset(Chunks(pairs, base));
    assert last in Chunks(pairs, base);
  }

  // ---- header to verdict

  ghost predicate SignedBySome(hmac: Hmac, secrets: seq<string>, token: string, digest: Digest) {
    exists i :: 0 <= i < |secrets| && hmac(Utf8.Encode(secrets[i]), Utf8.Encode(token)) == digest
  }

  /** `value` decodes to the token, a dot, and what the key `secret` signs that token as. */
  predicate SignedWith(value: string, token: string, hmac: Hmac, secret: string) {
    |value| <= 8192 && Unquote(value) == Some(token + "." + Signature(hmac, secret, token))
  }

  ghost predicate SignedValue(value: string, token: string, hmac: Hmac, secrets: seq<string>) {
    exists i :: 0 <= i < |secrets| && SignedWith(value, token, hmac, secrets[i])
  }

  /** The whole pipeline, exactly: a header yields `token` if and only if it is within both caps, its readable
      pairs are one whole cookie or the pieces of one, that cookie decodes to a non-empty token with what some
      keyring entry signs it as, and CSRF allows the request. */
  lemma {:induction false} BelievedExactly(
      lines: seq<string>, base: string, allows: string -> bool, hmac: Hmac, secrets: seq<string>, token: string)
    ensures Believed(lines, base, allows, hmac, secrets) == Ok(token) <==>
      && |Join(lines)| <= 16384 && |Pairs(Join(lines))| <= 512
      && token != "" && allows(token)
      && exists value :: Brings(ReadablePairs(lines, base), base, value) && SignedValue(value, token, hmac, secrets)
  {
    var pairs := ReadablePairs(lines, base);
    ReadableAreAcceptable(Pairs(Join(lines)), base);
    ProvenExactly(pairs, base, allows, hmac, secrets, token);
    BelievedIsProven(lines, base, allows, hmac, secrets);
    if pairs == [] {
      forall value ensures !Brings(pairs, base, value) { NothingBringsNothing(pairs, base, value); }
    }
  }

  lemma {:induction false} BelievedIsProven(
      lines: seq<string>, base: string, allows: string -> bool, hmac: Hmac, secrets: seq<string>)
    ensures var pairs := ReadablePairs(lines, base);
            Believed(lines, base, allows, hmac, secrets) ==
              if |Join(lines)| <= 16384 && |Pairs(Join(lines))| <= 512 && pairs != []
              then Proven(pairs, base, allows, hmac, secrets) else Err(Absent)
  {
  }

  lemma {:induction false} NothingBringsNothing(pairs: seq<Pair>, base: string, value: string)
    requires pairs == []
    ensures !Brings(pairs, base, value)
  {
    if Brings(pairs, base, value) { BringsSomething(pairs, base, value); }
  }

  lemma {:induction false} ReadableAreAcceptable(pairs: seq<Pair>, base: string)
    ensures AllAcceptable(Collect(PickReadable(base), pairs), base)
  {
    var matched := Collect(PickReadable(base), pairs);
    CollectedAreReadable(pairs, base);
    forall i | 0 <= i < |matched| ensures Acceptable(base, matched[i].name) {
      assert matched[i] in matched;
      assert Readable(base, matched[i]);
    }
  }

  lemma {:induction false} BringsSomething(pairs: seq<Pair>, base: string, value: string)
    requires Brings(pairs, base, value)
    ensures pairs != []
  {
    if pairs != [Pair(base, value)] {
      var pieces: seq<string> :| CutUp(pairs, base, value, pieces);
      assert |pairs| == |multiset(pairs)| == |multiset(Delivered(base, pieces))|;
    }
  }

  lemma {:induction false} ProvenExactly(
      pairs: seq<Pair>, base: string, allows: string -> bool, hmac: Hmac, secrets: seq<string>, token: string)
    requires AllAcceptable(pairs, base)
    ensures Proven(pairs, base, allows, hmac, secrets) == Ok(token) <==>
      && token != "" && allows(token)
      && exists value :: Brings(pairs, base, value) && SignedValue(value, token, hmac, secrets)
  {
    forall value | SignedValue(value, token, hmac, secrets)
      ensures ResolveNamedCookie(pairs, base) == Ok(Pair(base, value)) <==> Brings(pairs, base, value)
      ensures ProvenValue(value, allows, hmac, secrets) == Ok(token) <==> token != "" && allows(token)
    {
      SignedIsShort(value, token, hmac, secrets);
      ResolvedExactly(pairs, base, value);
      ProvenValueExactly(value, allows, hmac, secrets, token);
    }
    if Proven(pairs, base, allows, hmac, secrets) == Ok(token) {
      var named := ResolveNamedCookie(pairs, base).value;
      ProvenValueExactly(named.value, allows, hmac, secrets, token);
      assert SignedValue(named.value, token, hmac, secrets);
    }
  }

  lemma {:induction false} SignedIsShort(value: string, token: string, hmac: Hmac, secrets: seq<string>)
    requires SignedValue(value, token, hmac, secrets)
    ensures |value| <= CookieChunks.MAX_COOKIE_BYTES
  {
  }

  lemma {:induction false} ProvenValueExactly(
      value: string, allows: string -> bool, hmac: Hmac, secrets: seq<string>, token: string)
    ensures ProvenValue(value, allows, hmac, secrets) == Ok(token) <==>
      token != "" && allows(token) && SignedValue(value, token, hmac, secrets)
  {
    forall i | 0 <= i < |secrets|
      ensures SignedWith(value, token, hmac, secrets[i]) && token != "" ==>
        ParseSignedValue(value) == Ok(ParsedCookie(token, Signature(hmac, secrets[i], token)))
    {
      SignatureShape(hmac, secrets[i], token);
      ParseAcceptsExactly(value, token, Signature(hmac, secrets[i], token));
    }
    if ParseSignedValue(value).Ok? {
      var p := ParseSignedValue(value).value;
      ParseAcceptsExactly(value, p.token, p.signature);
      if Accepts(hmac, secrets, p.token, p.signature) {
        var i :| 0 <= i < |secrets| && p.signature == Signature(hmac, secrets[i], p.token);
        assert SignedWith(value, p.token, hmac, secrets[i]);
      }
    }
  }

  lemma {:induction false} SignatureShape(hmac: Hmac, secret: string, token: string)
    ensures '.' !in Signature(hmac, secret, token) && SpellsSomeDigest(Signature(hmac, secret, token))
  {
    var digest := hmac(Utf8.Encode(secret), Utf8.Encode(token));
    EncodedHasNoDot(digest);
    assert 0 < Base64.Slack(HMAC_BYTES) && Signature(hmac, secret, token) == Base64.Spell(digest, 0);
  }

  /** And what a request is told: readable pairs that bring, among any other cookies, a percent-encoded
      `token.base64(digest)` yield the token, a cross-site refusal, or a bad-signature refusal, decided by the
      CSRF policy first and the keyring after it. */
  lemma {:induction false} BelievedExactlyWhenSigned(
      lines: seq<string>, base: string, value: string,
      token: string, digest: Digest, allows: string -> bool, hmac: Hmac, secrets: seq<string>)
    requires |Join(lines)| <= MAX_COOKIE_HEADER_BYTES && |Pairs(Join(lines))| <= MAX_COOKIE_PAIRS
    requires Brings(ReadablePairs(lines, base), base, value) && |value| <= CookieChunks.MAX_COOKIE_BYTES
    requires token != "" && Spells(value, Utf8.Encode(token + "." + Base64.Encode(digest)))
    ensures Believed(lines, base, allows, hmac, secrets) ==
      if !allows(token) then Err(CrossSite)
      else if SignedBySome(hmac, secrets, token, digest) then Ok(token)
      else Err(Flawed(BadSignature))
  {
    var pairs := ReadablePairs(lines, base);
    ReadableAreAcceptable(Pairs(Join(lines)), base);
    BringsSomething(pairs, base, value);
    ResolvedExactly(pairs, base, value);
    ExtractedIsProven(lines, base, value, allows, hmac, secrets);
    ValueVerdict(value, token, digest, allows, hmac, secrets);
  }

  lemma {:induction false} ExtractedIsProven(
      lines: seq<string>, base: string, value: string, allows: string -> bool, hmac: Hmac, secrets: seq<string>)
    requires |Join(lines)| <= MAX_COOKIE_HEADER_BYTES && |Pairs(Join(lines))| <= MAX_COOKIE_PAIRS
    requires var pairs := ReadablePairs(lines, base);
             pairs != [] && ResolveNamedCookie(pairs, base) == Ok(Pair(base, value))
    ensures Believed(lines, base, allows, hmac, secrets) == ProvenValue(value, allows, hmac, secrets)
  {
    assert Extract(lines, base) == Some(ReadablePairs(lines, base));
  }

  lemma {:induction false} ValueVerdict(
      value: string, token: string, digest: Digest, allows: string -> bool, hmac: Hmac, secrets: seq<string>)
    requires |value| <= CookieChunks.MAX_COOKIE_BYTES
    requires token != "" && Spells(value, Utf8.Encode(token + "." + Base64.Encode(digest)))
    ensures ProvenValue(value, allows, hmac, secrets) ==
      if !allows(token) then Err(CrossSite)
      else if SignedBySome(hmac, secrets, token, digest) then Ok(token)
      else Err(Flawed(BadSignature))
  {
    SignedRoundTrip(value, token, digest);
    AcceptedExactlyWhenSigned(hmac, secrets, token, digest, 0);
  }

  /** In particular for a header printed from legal pairs, in terms of those pairs: whatever other cookies stand
      among them, what the readable ones bring decides. */
  lemma {:induction false} PrintedIsBelieved(
      all: seq<Pair>, base: string, value: string,
      token: string, digest: Digest, allows: string -> bool, hmac: Hmac, secrets: seq<string>)
    requires AllLegal(all) && |Print(all)| <= MAX_COOKIE_HEADER_BYTES && |all| <= MAX_COOKIE_PAIRS
    requires Brings(Collect(PickReadable(base), all), base, value) && |value| <= CookieChunks.MAX_COOKIE_BYTES
    requires token != "" && Spells(value, Utf8.Encode(token + "." + Base64.Encode(digest)))
    ensures Believed([Print(all)], base, allows, hmac, secrets) ==
      if !allows(token) then Err(CrossSite)
      else if SignedBySome(hmac, secrets, token, digest) then Ok(token)
      else Err(Flawed(BadSignature))
  {
    PrintParse(all);
    assert Join([Print(all)]) == Print(all);
    BelievedExactlyWhenSigned([Print(all)], base, value, token, digest, allows, hmac, secrets);
  }
}
