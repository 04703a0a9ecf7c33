/** The signed cookie value: structural parse, Mode C's looser structural rung, and the keyring check. */
module SignedCookie {
  import opened Wrappers
  import opened Lists
  import opened PyText
  import Utf8
  import Base64
  import opened PercentCoding

  const SIGNATURE_LENGTH := 44
  const HMAC_BYTES := 32
  const MAX_COOKIE_BYTES := 8192
  const MAX_TOKEN_BYTES := 4096

  type Bytes = seq<Utf8.Byte>
  type Digest = d: Bytes | |d| == HMAC_BYTES witness seq(HMAC_BYTES, _ => 0)

  /** HMAC-SHA256 as a function of key and message; nothing but its length is assumed. */
  type Hmac = (Bytes, Bytes) -> Digest

  datatype ParsedCookie = ParsedCookie(token: string, signature: string)

  datatype Flaw =
    | TooLong | NotUtf8 | NoSeparator | EmptyToken | EmptySignature | TokenTooLong
    | SignatureLength | NotBase64 | DigestLength | BadSignature

  function ParseSignedValue(material: string): Result<ParsedCookie, Flaw> {
    if |material| > MAX_COOKIE_BYTES then Err(TooLong)
    else
      match Unquote(material)
      case None => Err(NotUtf8)
      case Some(decoded) =>
        var cut := RPartition(decoded, '.');
        if !cut.found then Err(NoSeparator)
        else if cut.before == "" then Err(EmptyToken)
        else if |cut.after| != SIGNATURE_LENGTH then Err(SignatureLength)
        else
          match Base64.Decode(cut.after)
          case None => Err(NotBase64)
          case Some(digest) =>
            if |digest| != HMAC_BYTES then Err(DigestLength) else Ok(ParsedCookie(cut.before, cut.after))
  }

  /** Rung one of the remote verifier: no rule about the signature's own shape. */
  function RungOne(material: string): Result<string, Flaw> {
    if |material| > MAX_COOKIE_BYTES then Err(TooLong)
    else
      match Unquote(material)
      case None => Err(NotUtf8)
      case Some(decoded) =>
        var cut := RPartition(decoded, '.');
        if !cut.found then Err(NoSeparator)
        else if cut.before == "" then Err(EmptyToken)
        else if cut.after == "" then Err(EmptySignature)
        else if |cut.before| > MAX_TOKEN_BYTES then Err(TokenTooLong)
        else Ok(cut.before)
  }

  /** What a key signs a token as. */
  function Signature(hmac: Hmac, secret: string, token: string): string {
    Base64.Encode(hmac(Utf8.Encode(secret), Utf8.Encode(token)))
  }

  predicate Accepts(hmac: Hmac, secrets: seq<string>, token: string, signature: string) {
    exists i :: 0 <= i < |secrets| && signature == Signature(hmac, secrets[i], token)
  }

  /** Every keyring entry is tried; a match is accumulated, never returned early. */
  method VerifySignature(hmac: Hmac, secrets: seq<string>, token: string, signature: string)
    returns (verdict: Result<(), Flaw>)
    ensures verdict == if Accepts(hmac, secrets, token, signature) then Ok(()) else Err(BadSignature)
  {
    var message := Utf8.Encode(token);
    var matched := false;
    for i := 0 to |secrets|
      invariant matched <==> Accepts(hmac, secrets[..i], token, signature)
    {
      var expected := Base64.Encode(hmac(Utf8.Encode(secrets[i]), message));
      assert secrets[..i + 1] == secrets[..i] + [secrets[i]];
      assert expected == Signature(hmac, secrets[..i + 1][i], token);
      matched := matched || signature == expected;
      assert forall j :: 0 <= j < i ==> secrets[..i + 1][j] == secrets[..i][j];
    }
    assert secrets[..|secrets|] == secrets;
    verdict := if matched then Ok(()) else Err(BadSignature);
  }

  predicate WellShaped(signature: string) {
    && |signature| == SIGNATURE_LENGTH
    && Base64.Decode(signature).Some? && |Base64.Decode(signature).value| == HMAC_BYTES
  }

  ghost predicate SpellsSomeDigest(signature: string) {
    exists digest: Digest, extra: nat :: extra < Base64.Slack(HMAC_BYTES) && signature == Base64.Spell(digest, extra)
  }

  /** Each digest has four spellings of 44 characters. */
  lemma {:induction false} FourSpellings(digest: Digest, extra: nat)
    ensures Base64.Slack(HMAC_BYTES) == 4
    ensures extra < 4 ==>
      |Base64.Spell(digest, extra)| == SIGNATURE_LENGTH && Base64.Decode(Base64.Spell(digest, extra)) == Some(digest)
  {
    Base64.SlackByThirds(HMAC_BYTES);
    if extra < 4 {
      Base64.SpellLength(digest, extra);
      Base64.DecodeSpelling(digest, extra);
    }
  }

  /** The shape check admits the four base64 spellings of each 32 bytes, canonical or not, and no more. */
  lemma {:induction false} ShapeAdmitsExactlySpellings(signature: string)
    ensures WellShaped(signature) <==> SpellsSomeDigest(signature)
  {
    if WellShaped(signature) {
      var extra := Base64.OnlySpellingsDecode(signature);
      var digest: Digest := Base64.Decode(signature).value;
      assert extra < Base64.Slack(HMAC_BYTES) && signature == Base64.Spell(digest, extra);
    }
    forall digest: Digest, extra: nat | extra < Base64.Slack(HMAC_BYTES) && signature == Base64.Spell(digest, extra)
      ensures WellShaped(signature)
    {
      FourSpellings(digest, extra);
    }
  }

  lemma {:induction false} SplitAtLastDot(decoded: string, token: string, signature: string)
    ensures RPartition(decoded, '.') == Cut(token, true, signature) <==>
      decoded == token + "." + signature && '.' !in signature
  {
    if '.' !in signature { RPartitionLast(token, '.', signature); }
    var i := LastIndexOf(decoded, '.');
    if i >= 0 { assert decoded == decoded[..i] + "." + decoded[i + 1..]; }
  }

  /** A value is accepted as `(token, signature)` exactly when it decodes to `token.signature`, split
      at the last dot, and the signature is one of the base64 spellings of some 32 bytes. */
  lemma {:induction false} ParseAcceptsExactly(material: string, token: string, signature: string)
    ensures ParseSignedValue(material) == Ok(ParsedCookie(token, signature)) <==>
      && |material| <= 8192 && Unquote(material) == Some(token + "." + signature)
      && token != "" && '.' !in signature && SpellsSomeDigest(signature)
  {
    ShapeAdmitsExactlySpellings(signature);
    if Unquote(material).Some? {
      SplitAtLastDot(Unquote(material).value, token, signature);
    }
  }

  /** The looser rung accepts a value exactly when it decodes to a token and some signature, neither empty,
      the signature dotless and the token within its own cap. */
  lemma {:induction false} RungOneAcceptsExactly(material: string, token: string)
    ensures RungOne(material) == Ok(token) <==>
      && |material| <= 8192 && token != "" && |token| <= 4096
      && exists signature: string ::
           signature != "" && '.' !in signature && Unquote(material) == Some(token + "." + signature)
  {
    if Unquote(material).Some? {
      var decoded := Unquote(material).value;
      forall signature: string ensures RPartition(decoded, '.') == Cut(token, true, signature) <==>
        decoded == token + "." + signature && '.' !in signature
      {
        SplitAtLastDot(decoded, token, signature);
      }
      if RungOne(material) == Ok(token) {
        assert RPartition(decoded, '.') == Cut(token, true, RPartition(decoded, '.').after);
      }
    }
  }

  /** Where both rungs accept a value they read the same token from it. */
  lemma {:induction false} RungsReadOneToken(material: string)
    ensures RungOne(material).Ok? && ParseSignedValue(material).Ok? ==>
      ParseSignedValue(material).value.token == RungOne(material).value
    ensures ParseSignedValue(material).Ok? && |ParseSignedValue(material).value.token| <= MAX_TOKEN_BYTES ==>
      RungOne(material).Ok?
  {
  }

  lemma {:induction false} EncodedHasNoDot(digest: Digest)
    ensures '.' !in Base64.Encode(digest)
  {
    Base64.EncodedAlphabet(digest);
  }

  /** Round trip: any percent-encoding of what upstream signs parses back to its token and signature. */
  lemma {:induction false} SignedRoundTrip(e: string, token: string, digest: Digest)
    requires token != "" && |e| <= MAX_COOKIE_BYTES
    requires Spells(e, Utf8.Encode(token + "." + Base64.Encode(digest)))
    ensures ParseSignedValue(e) == Ok(ParsedCookie(token, Base64.Encode(digest)))
  {
    UnquoteSpelling(e, token + "." + Base64.Encode(digest));
    EncodedHasNoDot(digest);
    FourSpellings(digest, 0);
    assert Base64.Encode(digest) == Base64.Spell(digest, 0);
    ParseAcceptsExactly(e, token, Base64.Encode(digest));
  }

  /** An admitted signature verifies exactly when it is the canonical spelling and some key made it. */
  lemma {:induction false} AcceptedExactlyWhenSigned(
      hmac: Hmac, secrets: seq<string>, token: string, digest: Digest, extra: nat)
    requires extra < Base64.Slack(HMAC_BYTES)
    ensures Accepts(hmac, secrets, token, Base64.Spell(digest, extra)) <==>
      && extra == 0
      && exists i :: 0 <= i < |secrets| && hmac(Utf8.Encode(secrets[i]), Utf8.Encode(token)) == digest
  {
    var signature := Base64.Spell(digest, extra);
    Base64.DecodeSpelling(digest, extra);
    if extra != 0 { Base64.SpellingsDiffer(digest, extra, 0); }
    forall i | 0 <= i < |secrets|
      ensures signature == Signature(hmac, secrets[i], token) <==>
        extra == 0 && hmac(Utf8.Encode(secrets[i]), Utf8.Encode(token)) == digest
    {
      Base64.DecodeSpelling(hmac(Utf8.Encode(secrets[i]), Utf8.Encode(token)), 0);
    }
  }

  /** With one secret: of every digest's every spelling the shape check admits, exactly one is accepted for a
      token, the canonical spelling of its own HMAC. */
  lemma {:induction false} OneSignaturePerToken(hmac: Hmac, secret: string, token: string, digest: Digest, extra: nat)
    requires extra < Base64.Slack(HMAC_BYTES)
    ensures WellShaped(Signature(hmac, secret, token)) && WellShaped(Base64.Spell(digest, extra))
    ensures Accepts(hmac, [secret], token, Base64.Spell(digest, extra)) <==>
      digest == hmac(Utf8.Encode(secret), Utf8.Encode(token)) && extra == 0
  {
    FourSpellings(hmac(Utf8.Encode(secret), Utf8.Encode(token)), 0);
    FourSpellings(digest, extra);
    AcceptedExactlyWhenSigned(hmac, [secret], token, digest, extra);
    assert [secret][0] == secret;
  }

  /** The other three spellings of a digest some key did compute pass the shape check and are refused by the
      whole keyring. */
  lemma {:induction false} OtherSpellingsAreRefused(hmac: Hmac, secrets: seq<string>, token: string, i: nat, extra: nat)
    requires i < |secrets| && 0 < extra < Base64.Slack(HMAC_BYTES)
    ensures var digest := hmac(Utf8.Encode(secrets[i]), Utf8.Encode(token));
            && Accepts(hmac, secrets, token, Base64.Spell(digest, 0))
            && WellShaped(Base64.Spell(digest, extra)) && !Accepts(hmac, secrets, token, Base64.Spell(digest, extra))
            && Base64.Decode(Base64.Spell(digest, extra)) == Base64.Decode(Base64.Spell(digest, 0))
  {
    var digest := hmac(Utf8.Encode(secrets[i]), Utf8.Encode(token));
    FourSpellings(digest, 0);
    FourSpellings(digest, extra);
    AcceptedExactlyWhenSigned(hmac, secrets, token, digest, 0);
    AcceptedExactlyWhenSigned(hmac, secrets, token, digest, extra);
  }

  /** The length of what follows the last dot of `a + b`, when `b` has no dot. */
  lemma {:induction false} AfterLastDot(a: string, b: string)
    requires '.' !in b
    ensures var cut := RPartition(a + b, '.'); cut.found ==> |cut.after| >= |b|
  {
    var s := a + b;
    var i := LastIndexOf(s, '.');
    assert forall j :: |a| <= j < |s| ==> s[j] == b[j - |a|];
  }

  lemma {:induction false} SpellingHasDotOnlyForDot(e: string, bs: Bytes)
    requires Spells(e, bs) && '.' as int !in bs
    ensures '.' !in e
    decreases |bs|
  {
    if bs != [] {
      if Escape(e) && EscapeValue(e) == bs[0] && Spells(e[3..], bs[1..]) {
        SpellingHasDotOnlyForDot(e[3..], bs[1..]);
        assert e == [e[0], e[1], e[2]] + e[3..];
      } else {
        SpellingHasDotOnlyForDot(e[1..], bs[1..]);
        assert e == [e[0]] + e[1..];
      }
    }
  }

  lemma {:induction false} AsciiBytes(s: string)
    requires Ascii(s)
    ensures |Utf8.Encode(s)| == |s| && forall i :: 0 <= i < |s| ==> Utf8.Encode(s)[i] == s[i] as int
  {
    if s != "" {
      assert s[0] in s;
      AsciiBytes(s[1..]);
    }
  }

  /** The dot and the signature stand at the end with nothing of them escaped. */
  predicate EndsPlainly(once: string, signature: string) {
    |once| > |signature| && once[|once| - |signature| - 1..] == "." + signature
  }

  /** A value encoded twice passes the parser exactly when its first encoding left the separator and the whole
      signature unescaped: the one decode then leaves the token encoded and the signature bare. */
  lemma {:induction false} TwiceEncodedExactly(once: string, twice: string, token: string, digest: Digest)
    requires token != "" && Spells(once, Utf8.Encode(token + "." + Base64.Encode(digest)))
    requires Spells(twice, Utf8.Encode(once))
    ensures ParseSignedValue(twice).Ok? <==> |twice| <= MAX_COOKIE_BYTES && EndsPlainly(once, Base64.Encode(digest))
    ensures match ParseSignedValue(twice)
            case Ok(p) => once == p.token + "." + p.signature && p.signature == Base64.Encode(digest)
            case Err(flaw) => flaw in {TooLong, NoSeparator, EmptyToken, SignatureLength}
  {
    UnquoteSpelling(twice, once);
    SignatureText(digest);
    var head, mark, tail := PartsOfSpelling(once, token, digest);
    TailOfSpelling(tail, Base64.Encode(digest));
    if mark == "." {
      LiteralDot(once, head, tail, Base64.Encode(digest));
    } else {
      assert (head + mark)[|head + mark| - 3..] == mark;
      EscapedDot(once, head + mark, tail, Base64.Encode(digest));
    }
  }

  lemma {:induction false} SignatureText(digest: Digest)
    ensures Ascii(Base64.Encode(digest)) && '.' !in Base64.Encode(digest) && WellShaped(Base64.Encode(digest))
  {
    FourSpellings(digest, 0);
    Base64.EncodedAlphabet(digest);
  }

  /** A value encoded twice is refused whenever the first encoding escaped the pad, for every token and digest. */
  lemma {:induction false} TwiceEncodedIsRefused(once: string, twice: string, token: string, digest: Digest)
    requires token != "" && Spells(once, Utf8.Encode(token + "." + Base64.Encode(digest)))
    requires once[|once| - 1..] != [Base64.PAD]
    requires Spells(twice, Utf8.Encode(once))
    ensures ParseSignedValue(twice).Err?
  {
    TwiceEncodedExactly(once, twice, token, digest);
    EncodedEndsInPad(digest);
    var signature := Base64.Encode(digest);
    if EndsPlainly(once, signature) { PlainEnd(once, signature); }
  }

  lemma {:induction false} PlainEnd(once: string, signature: string)
    requires signature != "" && EndsPlainly(once, signature)
    ensures once[|once| - 1..] == signature[|signature| - 1..]
  {
    assert once[|once| - 1..] == once[|once| - |signature| - 1..][|signature|..];
    assert ("." + signature)[|signature|..] == signature[|signature| - 1..];
  }

  lemma {:induction false} EncodedEndsInPad(digest: Digest)
    ensures var s := Base64.Encode(digest); |s| == SIGNATURE_LENGTH && s[|s| - 1..] == [Base64.PAD]
  {
    FourSpellings(digest, 0);
    Base64.PadsByThirds(HMAC_BYTES);
  }

  /** The token's part of the first encoding, its separator, and its signature's part. */
  lemma {:induction false} PartsOfSpelling(once: string, token: string, digest: Digest)
      returns (head: string, mark: string, tail: string)
    requires token != "" && Spells(once, Utf8.Encode(token + "." + Base64.Encode(digest)))
    ensures once == head + mark + tail && head != "" && Spells(tail, Utf8.Encode(Base64.Encode(digest)))
    ensures mark == "." || (|mark| == 3 && Escape(mark))
  {
    var signature := Base64.Encode(digest);
    Utf8.EncodeConcat(token + ".", signature);
    Utf8.EncodeConcat(token, ".");
    var i := SplitSpelling(once, Utf8.Encode(token + "."), Utf8.Encode(signature));
    head, mark := FrontOfSpelling(once[..i], Utf8.Encode(token));
    tail := once[i..];
  }

  lemma {:induction false} FrontOfSpelling(front: string, token: Bytes) returns (head: string, mark: string)
    requires token != [] && Spells(front, token + Utf8.Encode("."))
    ensures front == head + mark && head != "" && (mark == "." || (|mark| == 3 && Escape(mark)))
  {
    var i := SplitSpelling(front, token, Utf8.Encode("."));
    head, mark := front[..i], front[i..];
    SpellingIsAscii(head, token);
    DotSpellings(mark);
  }

  lemma {:induction false} DotSpellings(mark: string)
    requires Spells(mark, Utf8.Encode("."))
    ensures mark == "." || (|mark| == 3 && Escape(mark))
  {
    assert Utf8.Encode(".") == [0x2e];
    assert Utf8.Encode(".")[1..] == [];
  }

  /** A spelling of the signature has no dot, and is the signature itself when it is no longer. */
  lemma {:induction false} TailOfSpelling(tail: string, signature: string)
    requires Ascii(signature) && '.' !in signature && Spells(tail, Utf8.Encode(signature))
    ensures '.' !in tail && |tail| >= |signature| && (|tail| == |signature| ==> tail == signature)
  {
    AsciiBytes(signature);
    SpellingIsAscii(tail, Utf8.Encode(signature));
    assert forall k :: 0 <= k < |signature| ==> signature[k] in signature;
    SpellingHasDotOnlyForDot(tail, Utf8.Encode(signature));
    if |tail| == |signature| { UnescapedIsLiteral(tail, Utf8.Encode(signature)); }
  }

  lemma {:induction false} UnescapedIsLiteral(e: string, bs: Bytes)
    requires Spells(e, bs) && |e| == |bs|
    ensures forall k :: 0 <= k < |e| ==> e[k] as int == bs[k]
    decreases |bs|
  {
    if bs != [] {
      if Escape(e) && EscapeValue(e) == bs[0] && Spells(e[3..], bs[1..]) {
        SpellingIsAscii(e[3..], bs[1..]);
        assert false;
      }
      UnescapedIsLiteral(e[1..], bs[1..]);
      assert forall k :: 1 <= k < |e| ==> e[k] == e[1..][k - 1] && bs[k] == bs[1..][k - 1];
    }
  }

  lemma {:induction false} LiteralDot(once: string, head: string, tail: string, signature: string)
    requires once == head + "." + tail && '.' !in tail && |tail| >= |signature|
    requires |tail| == |signature| ==> tail == signature
    ensures RPartition(once, '.') == Cut(head, true, tail)
    ensures EndsPlainly(once, signature) <==> tail == signature
  {
    SplitAtLastDot(once, head, tail);
    var n := |once| - |signature| - 1;
    assert EndsPlainly(once, signature) ==> once[n] == once[n..][0] == '.';
    assert |tail| > |signature| ==> once[n] == tail[n - |head| - 1];
    if tail == signature { assert once[n..] == "." + tail; }
  }

  lemma {:induction false} EscapedDot(once: string, front: string, tail: string, signature: string)
    requires once == front + tail && |front| >= 3 && Escape(front[|front| - 3..])
    requires '.' !in tail && |tail| >= |signature|
    ensures RPartition(once, '.').found ==> |RPartition(once, '.').after| > |signature|
    ensures !EndsPlainly(once, signature)
  {
    var mark := front[|front| - 3..];
    assert once == front[..|front| - 3] + (mark + tail);
    AfterLastDot(front[..|front| - 3], mark + tail);
    var n := |once| - |signature| - 1;
    assert once[n] == (mark + tail)[n - |front| + 3];
    assert once[n] == once[n..][0];
  }
}
