/** "A non-ASCII host is refused": what `normalize_base_url` does with one, and exactly when that holds. */
module NonAsciiHosts {
  import opened Wrappers
  import opened Lists
  import opened PyText
  import opened Urls

  /** What `urlsplit` makes of a value that has no character refused outright. */
  function PartsOf(lib: Library, value: string): Option<Parts> {
    if HasBadCharacter(Strip(value)) then None else UrlSplit(lib, Strip(value))
  }

  /** The host as the authority spells it, before it is lowercased. */
  function WrittenHost(netloc: string): string { HostInfo(netloc).0 }

  /** Every check before the host's has passed. */
  predicate ReachesHost(parts: Parts) {
    Port(parts.netloc).Ok? && (parts.scheme == "https" || parts.scheme == "http") && '@' !in parts.netloc
  }

  /** A value that reaches the host check with no zone identifier, its host no IPv6 literal, is refused as
      non-ASCII exactly when the host is still non-ASCII once lowercased - not when it was written so. */
  lemma {:induction false} RefusedAsNonAsciiExactly(lib: Library, value: string)
    requires PartsOf(lib, value).Some? && ReachesHost(PartsOf(lib, value).value)
    requires var h := WrittenHost(PartsOf(lib, value).value.netloc); '%' !in h && ':' !in lib.lower(h)
    ensures Checked(lib, value) == Err(NonAsciiHost) <==>
      !Ascii(lib.lower(WrittenHost(PartsOf(lib, value).value.netloc)))
  {
    var h := WrittenHost(PartsOf(lib, value).value.netloc);
    NotFound(h, '%');
    assert Hostname(lib, PartsOf(lib, value).value.netloc) == lib.lower(h);
    HostRefusalDecides(lib, PartsOf(lib, value).value, lib.lower(h));
  }

  lemma {:induction false} HostRefusalDecides(lib: Library, parts: Parts, raw: string)
    requires ReachesHost(parts) && Hostname(lib, parts.netloc) == raw && ':' !in raw
    ensures CheckedParts(lib, parts) == Err(NonAsciiHost) <==> !Ascii(raw)
  {
  }

  // ---- the input

  /** The Kelvin sign lowercases to `k`: a host that is not ASCII is accepted, and becomes one that is. */
  lemma {:induction false} KelvinIsAccepted(lib: Library, sign: char, kelvin: string, host: string)
    requires sign as int == 0x212a && kelvin == [sign] && host == ['k']
    requires lib.lower(kelvin) == host && lib.acceptsNetloc(kelvin) && lib.parseIp(host).None?
    ensures !Ascii(kelvin) && Normalize(lib, "https://" + kelvin) == Ok("https://" + host)
  {
    KIsAHost(lib, host);
    assert sign in kelvin;
    LoneIsAccepted(lib, sign, kelvin, Host(host, false));
  }

  /** So is any lone non-ASCII character that lowercases to an acceptable host. */
  lemma {:induction false} LoneIsAccepted(lib: Library, c: char, netloc: string, host: Host)
    requires netloc == [c] && !IsAscii(c) && CleanChar(c) && lib.acceptsNetloc(netloc)
    requires CanonicalHost(lib, lib.lower(netloc)) == Ok(host)
    ensures Normalize(lib, "https://" + netloc) == Ok("https://" + host.text)
  {
    LoneStands(lib, c, netloc);
    StandingPrints(lib, netloc, host);
  }

  /** An authority that stands with no port is printed as its canonical host. */
  lemma {:induction false} StandingPrints(lib: Library, netloc: string, host: Host)
    requires Stands(lib, netloc) && netloc != "" && CanonicalHost(lib, lib.lower(WrittenHost(netloc))) == Ok(host)
    requires Port(netloc) == Ok(None)
    ensures Normalize(lib, "https://" + netloc) == Ok("https://" + host.text)
  {
    StandingIsAccepted(lib, netloc, host);
    NormalizePrints(lib, "https://" + netloc, Origin("https", host.text, 443));
    DefaultPortIsSilent(host.text);
  }

  lemma {:induction false} DefaultPortIsSilent(host: string)
    ensures Print(Origin("https", host, 443)) == "https://" + host
  {
  }

  lemma {:induction false} NormalizePrints(lib: Library, value: string, o: Origin)
    requires Checked(lib, value) == Ok(o)
    ensures Normalize(lib, value) == Ok(Print(o))
  {
  }

  lemma {:induction false} LoneStands(lib: Library, c: char, netloc: string)
    requires netloc == [c] && !IsAscii(c) && CleanChar(c) && lib.acceptsNetloc(netloc)
    ensures Stands(lib, netloc) && WrittenHost(netloc) == netloc && Port(netloc) == Ok(None)
  {
    LoneInfo(c, netloc);
    CleanHasNoBad(netloc);
  }

  lemma {:induction false} LoneInfo(c: char, netloc: string)
    requires netloc == [c] && !IsAscii(c)
    ensures HostInfo(netloc) == (netloc, "")
  {
    NotFound(netloc, '@');
    NotFound(netloc, '[');
    NotFound(netloc, ':');
  }

  lemma {:induction false} KIsAHost(lib: Library, host: string)
    requires host == ['k'] && lib.parseIp(host).None?
    ensures CanonicalHost(lib, host) == Ok(Host(host, false))
  {
    assert IndexOf(host, '.') == 1;
    assert Split(host, '.') == [host];
    assert IsLabel(host);
  }

  // ---- the condition

  /** An authority that can stand after `https://`, its host without a zone identifier. */
  predicate Stands(lib: Library, netloc: string) {
    && lib.acceptsNetloc(netloc) && !HasBadCharacter(netloc)
    && '/' !in netloc && '?' !in netloc && '#' !in netloc && '@' !in netloc && '%' !in WrittenHost(netloc)
    && Port(netloc).Ok? && Port(netloc).value != Some(0)
  }

  /** Only an IPv6 literal has a zone identifier. */
  ghost predicate ZonesAreV6(lib: Library) { forall s :: lib.parseIp(s).Some? && '%' in s ==> ':' in s }

  ghost predicate AcceptsOnlyAscii(lib: Library) {
    forall value :: Checked(lib, value).Ok? ==> ShowsAscii(lib, value)
  }

  predicate ShowsAscii(lib: Library, value: string) {
    PartsOf(lib, value).Some? && Ascii(WrittenHost(PartsOf(lib, value).value.netloc))
  }

  /** Lowercasing turns no non-ASCII host into one that would be accepted. */
  ghost predicate LowersNoneToHost(lib: Library) {
    forall netloc :: Stands(lib, netloc) && !Ascii(WrittenHost(netloc)) ==>
      CanonicalHost(lib, lib.lower(WrittenHost(netloc))).Err?
  }

  /** No accepted value has a non-ASCII host exactly when lowercasing turns none into an acceptable one. */
  lemma {:induction false} AcceptsOnlyAsciiExactly(lib: Library)
    requires ZonesAreV6(lib)
    ensures AcceptsOnlyAscii(lib) <==> LowersNoneToHost(lib)
  {
    if AcceptsOnlyAscii(lib) {
      forall netloc | Stands(lib, netloc) && !Ascii(WrittenHost(netloc))
        ensures CanonicalHost(lib, lib.lower(WrittenHost(netloc))).Err?
      {
        AcceptanceShows(lib, netloc);
      }
    }
    if LowersNoneToHost(lib) {
      forall value | Checked(lib, value).Ok? ensures ShowsAscii(lib, value) { AcceptedShowsAscii(lib, value); }
    }
  }

  lemma {:induction false} AcceptedShowsAscii(lib: Library, value: string)
    requires ZonesAreV6(lib) && LowersNoneToHost(lib) && Checked(lib, value).Ok?
    ensures ShowsAscii(lib, value)
  {
    AcceptedSplits(lib, value);
    if !Ascii(WrittenHost(PartsOf(lib, value).value.netloc)) { AcceptedStands(lib, value); }
  }

  lemma {:induction false} AcceptanceShows(lib: Library, netloc: string)
    requires AcceptsOnlyAscii(lib) && Stands(lib, netloc) && !Ascii(WrittenHost(netloc))
    ensures CanonicalHost(lib, lib.lower(WrittenHost(netloc))).Err?
  {
    if CanonicalHost(lib, lib.lower(WrittenHost(netloc))).Ok? {
      EmptyAuthority(netloc);
      StandingIsAccepted(lib, netloc, CanonicalHost(lib, lib.lower(WrittenHost(netloc))).value);
      AcceptedIsAscii(lib, "https://" + netloc, Parts("https", netloc, "", "", ""));
    }
  }

  lemma {:induction false} AcceptedIsAscii(lib: Library, value: string, parts: Parts)
    requires AcceptsOnlyAscii(lib) && Checked(lib, value).Ok? && PartsOf(lib, value) == Some(parts)
    ensures Ascii(WrittenHost(parts.netloc))
  {
    assert ShowsAscii(lib, value);
  }

  lemma {:induction false} EmptyAuthority(netloc: string)
    requires !Ascii(WrittenHost(netloc))
    ensures netloc != ""
  {
  }

  // ---- an authority that stands is accepted

  lemma {:induction false} StandingIsAccepted(lib: Library, netloc: string, host: Host)
    requires Stands(lib, netloc) && netloc != "" && CanonicalHost(lib, lib.lower(WrittenHost(netloc))) == Ok(host)
    ensures PartsOf(lib, "https://" + netloc) == Some(Parts("https", netloc, "", "", ""))
    ensures Checked(lib, "https://" + netloc)
         == Ok(Origin("https", host.text, if Port(netloc).value.Some? then Port(netloc).value.value else 443))
  {
    StandingSplits(lib, netloc);
    CheckedSplits(lib, "https://" + netloc, Parts("https", netloc, "", "", ""));
    PlainHostname(lib, netloc);
    StandingPasses(lib, netloc, lib.lower(WrittenHost(netloc)), host);
  }

  lemma {:induction false} PlainHostname(lib: Library, netloc: string)
    requires '%' !in WrittenHost(netloc)
    ensures Hostname(lib, netloc) == lib.lower(WrittenHost(netloc))
  {
    NotFound(WrittenHost(netloc), '%');
  }

  lemma {:induction false} StandingPasses(lib: Library, netloc: string, raw: string, host: Host)
    requires '@' !in netloc && Port(netloc).Ok? && Port(netloc).value != Some(0)
    requires Hostname(lib, netloc) == raw && CanonicalHost(lib, raw) == Ok(host)
    ensures CheckedParts(lib, Parts("https", netloc, "", "", ""))
         == Ok(Origin("https", host.text, if Port(netloc).value.Some? then Port(netloc).value.value else 443))
  {
  }

  lemma {:induction false} CheckedSplits(lib: Library, value: string, parts: Parts)
    requires PartsOf(lib, value) == Some(parts)
    ensures Checked(lib, value) == CheckedParts(lib, parts)
  {
  }

  lemma {:induction false} StandingSplits(lib: Library, netloc: string)
    requires lib.acceptsNetloc(netloc) && !HasBadCharacter(netloc) && netloc != ""
    requires '/' !in netloc && '?' !in netloc && '#' !in netloc
    ensures PartsOf(lib, "https://" + netloc) == Some(Parts("https", netloc, "", "", ""))
  {
    HttpsIsClean("https://");
    PrefixedIsClean("https://", netloc);
    HttpsSplits(netloc);
    NetlocEndsAtEnd(netloc);
    SplitOfClean(lib, "https://" + netloc, netloc);
  }

  lemma {:induction false} HttpsSplits(netloc: string)
    ensures SplitScheme("https://" + netloc) == ("https", "//" + netloc)
  {
    SchemeOfOrigin("https", netloc);
    assert "https" + "://" == "https://";
  }

  lemma {:induction false} SplitOfClean(lib: Library, value: string, netloc: string)
    requires Strip(value) == value && !HasBadCharacter(value)
    requires SplitScheme(value) == ("https", "//" + netloc) && lib.acceptsNetloc(netloc)
             && NetlocEnd(netloc) == |netloc|
    ensures PartsOf(lib, value) == Some(Parts("https", netloc, "", "", ""))
  {
    OriginSplits(lib, value, "https", netloc);
  }

  predicate CleanChar(c: char) { !IsSpace(c) && c as int >= 0x20 && c as int != 0x7f }

  lemma {:induction false} CleanHasNoBad(text: string)
    ensures HasBadCharacter(text) <==> !All(text, CleanChar)
  {
  }

  lemma {:induction false} CleanIsStripped(text: string)
    requires All(text, CleanChar)
    ensures Strip(text) == text
  {
    TrimId(text, IsSpace);
  }

  lemma {:induction false} CleanConcat(a: string, b: string)
    requires All(a, CleanChar) && All(b, CleanChar)
    ensures All(a + b, CleanChar)
  {
  }

  lemma {:induction false} HttpsIsClean(prefix: string)
    requires prefix == "https://"
    ensures All(prefix, CleanChar)
  {
  }

  lemma {:induction false} PrefixedIsClean(prefix: string, netloc: string)
    requires All(prefix, CleanChar) && !HasBadCharacter(netloc)
    ensures Strip(prefix + netloc) == prefix + netloc && !HasBadCharacter(prefix + netloc)
  {
    var value := prefix + netloc;
    CleanHasNoBad(netloc);
    CleanConcat(prefix, netloc);
    CleanHasNoBad(value);
    CleanIsStripped(value);
  }

  // ---- an accepted authority stands

  lemma {:induction false} AcceptedStands(lib: Library, value: string)
    requires ZonesAreV6(lib) && Checked(lib, value).Ok?
    requires PartsOf(lib, value).Some? && !Ascii(WrittenHost(PartsOf(lib, value).value.netloc))
    ensures var netloc := PartsOf(lib, value).value.netloc;
            Stands(lib, netloc) && CanonicalHost(lib, lib.lower(WrittenHost(netloc))).Ok?
  {
    AcceptedSplits(lib, value);
    var parts := PartsOf(lib, value).value;
    AcceptedPasses(lib, parts);
    AcceptedHasNoZone(lib, parts.netloc);
    EmptyAuthority(parts.netloc);
    SplitAuthority(lib, Strip(value));
    PlainHostname(lib, parts.netloc);
    StandsFrom(lib, parts.netloc);
  }

  lemma {:induction false} StandsFrom(lib: Library, netloc: string)
    requires lib.acceptsNetloc(netloc) && !HasBadCharacter(netloc)
    requires '/' !in netloc && '?' !in netloc && '#' !in netloc && '@' !in netloc && '%' !in WrittenHost(netloc)
    requires Port(netloc).Ok? && Port(netloc).value != Some(0)
    ensures Stands(lib, netloc)
  {
  }

  lemma {:induction false} AcceptedSplits(lib: Library, value: string)
    requires Checked(lib, value).Ok?
    ensures PartsOf(lib, value).Some? && Checked(lib, value) == CheckedParts(lib, PartsOf(lib, value).value)
    ensures UrlSplit(lib, Strip(value)) == PartsOf(lib, value) && !HasBadCharacter(Strip(value))
  {
  }

  lemma {:induction false} AcceptedPasses(lib: Library, parts: Parts)
    requires CheckedParts(lib, parts).Ok?
    ensures Port(parts.netloc).Ok? && Port(parts.netloc).value != Some(0) && '@' !in parts.netloc
    ensures CanonicalHost(lib, Hostname(lib, parts.netloc)).Ok?
  {
  }

  /** What `urlsplit` calls the authority is a stretch of the text, free of the characters that end one. */
  lemma {:induction false} SplitAuthority(lib: Library, text: string)
    requires UrlSplit(lib, text).Some? && !HasBadCharacter(text) && UrlSplit(lib, text).value.netloc != ""
    ensures var netloc := UrlSplit(lib, text).value.netloc;
            && lib.acceptsNetloc(netloc) && !HasBadCharacter(netloc)
            && '/' !in netloc && '?' !in netloc && '#' !in netloc
  {
    var rest := SplitScheme(text).1;
    var netloc := UrlSplit(lib, text).value.netloc;
    AuthorityIs(lib, text, rest);
    NetlocEndsBefore(rest[2..]);
    RestIsTail(text);
    PartIsClean(text, netloc, |text| - |rest| + 2);
  }

  lemma {:induction false} AuthorityIs(lib: Library, text: string, rest: string)
    requires UrlSplit(lib, text).Some? && SplitScheme(text).1 == rest && UrlSplit(lib, text).value.netloc != ""
    ensures |rest| >= 2 && NetlocEnd(rest[2..]) <= |rest[2..]|
    ensures UrlSplit(lib, text).value.netloc == rest[2..][..NetlocEnd(rest[2..])]
    ensures lib.acceptsNetloc(UrlSplit(lib, text).value.netloc)
  {
    assert rest[2..][..NetlocEnd(rest[2..])] == rest[2..2 + NetlocEnd(rest[2..])];
  }

  lemma {:induction false} RestIsTail(text: string)
    ensures var rest := SplitScheme(text).1; |rest| <= |text| && rest == text[|text| - |rest|..]
  {
  }

  lemma {:induction false} NetlocEndsBefore(s: string)
    ensures var netloc := s[..NetlocEnd(s)]; '/' !in netloc && '?' !in netloc && '#' !in netloc
  {
    var netloc := s[..NetlocEnd(s)];
    assert forall k :: 0 <= k < |netloc| ==> netloc[k] == s[k];
  }

  lemma {:induction false} PartIsClean(text: string, part: string, from: nat)
    requires from + |part| <= |text| && part == text[from..][..|part|] && !HasBadCharacter(text)
    ensures !HasBadCharacter(part)
  {
    CleanHasNoBad(text);
    assert forall i :: 0 <= i < |part| ==> part[i] == text[from + i];
    CleanHasNoBad(part);
  }

  lemma {:induction false} AcceptedHasNoZone(lib: Library, netloc: string)
    requires ZonesAreV6(lib) && CanonicalHost(lib, Hostname(lib, netloc)).Ok?
    ensures '%' !in WrittenHost(netloc)
  {
    if '%' in WrittenHost(netloc) {
      ZoneStays(lib, netloc);
      ZoneIsRefused(lib, Hostname(lib, netloc));
    }
  }

  lemma {:induction false} ZoneStays(lib: Library, netloc: string)
    requires '%' in WrittenHost(netloc)
    ensures '%' in Hostname(lib, netloc)
  {
  }

  lemma {:induction false} ZoneIsRefused(lib: Library, raw: string)
    requires ZonesAreV6(lib) && '%' in raw
    ensures CanonicalHost(lib, raw).Err?
  {
    var host := WithoutFinalDot(raw);
    if ':' !in raw {
      assert '%' in host && ':' !in host;
      if IsHostname(host) { HostnameChars(host); NoColonIn(host); }
    }
  }
}
