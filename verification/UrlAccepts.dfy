/** Which values are accepted as an origin, and as which one, from their text. */
module UrlAccepts {
  import opened Wrappers
  import opened Lists
  import opened PyText
  import opened Urls
  import opened NonAsciiHosts

  // ---- the text

  /** No path but a lone slash, no query, no fragment; a bare `?` or `#` at the end says nothing. */
  predicate Nothing(path: string, mark: string, hash: string) {
    (path == "" || path == "/") && (mark == "" || mark == "?") && (hash == "" || hash == "#")
  }

  /** `lower`, one of the two schemes, in any case. */
  predicate Web(scheme: string, lower: string) { (lower == "https" || lower == "http") && AnyCase(scheme, lower) }

  predicate NoEnd(netloc: string) { '/' !in netloc && '?' !in netloc && '#' !in netloc }

  predicate Written(text: string, scheme: string, netloc: string, path: string, mark: string, hash: string) {
    && text == scheme + [':'] + ("//" + (netloc + (path + mark + hash)))
    && NoEnd(netloc) && '@' !in netloc && Nothing(path, mark, hash)
  }

  /** The host and the port the authority shows are the origin's: http for a loopback host only, port 0 never,
      and no port is 443 or 80. */
  ghost predicate Addresses(lib: Library, netloc: string, o: Origin) {
    && lib.acceptsNetloc(netloc) && Port(netloc).Ok?
    && (exists loopback :: Canonicalizes(lib, Hostname(lib, netloc), Host(o.host, loopback))
                           && (o.scheme == "http" ==> loopback))
    && match Port(netloc).value
       case None => o.port == if o.scheme == "https" then 443 else 80
       case Some(p) => p != 0 && o.port == p
  }

  ghost predicate WrittenFor(lib: Library, text: string, o: Origin,
                             scheme: string, netloc: string, path: string, mark: string, hash: string) {
    Written(text, scheme, netloc, path, mark, hash) && Web(scheme, o.scheme) && Addresses(lib, netloc, o)
  }

  /** A value is accepted as an origin exactly when, space around it aside, it is that origin's scheme in any
      case, `://`, an authority with no credentials that shows its host and port, and nothing after it but
      perhaps a slash; no character of it is a space or a control character. */
  lemma {:induction false} AcceptedAsExactly(lib: Library, value: string, o: Origin)
    requires LawfulLower(lib)
    ensures Checked(lib, value) == Ok(o) <==>
      && All(Strip(value), CleanChar)
      && exists scheme, netloc, path, mark, hash ::
           WrittenFor(lib, Strip(value), o, scheme, netloc, path, mark, hash)
  {
    CleanHasNoBad(Strip(value));
    if Checked(lib, value) == Ok(o) { AcceptedIsWritten(lib, value, o); }
    forall scheme, netloc, path, mark, hash |
      !HasBadCharacter(Strip(value)) && WrittenFor(lib, Strip(value), o, scheme, netloc, path, mark, hash)
      ensures Checked(lib, value) == Ok(o)
    {
      WrittenIsAccepted(lib, value, o, scheme, netloc, path, mark, hash);
    }
  }

  // ---- the checks, in order

  predicate PartsPass(parts: Parts) {
    && (parts.scheme == "https" || parts.scheme == "http") && '@' !in parts.netloc
    && (parts.path == "" || parts.path == "/") && parts.query == "" && parts.fragment == ""
  }

  /** What the checks make of a split value. */
  lemma {:induction false} JudgedExactly(
      parts: Parts, port: Result<Option<nat>, ()>, host: Result<Host, Refusal>, o: Origin)
    ensures Judged(parts, port, host) == Ok(o) <==>
      && PartsPass(parts) && port.Ok? && host.Ok? && port.value != Some(0)
      && (parts.scheme == "http" ==> host.value.loopback)
      && o.scheme == parts.scheme && o.host == host.value.text
      && o.port == if port.value.Some? then port.value.value else if parts.scheme == "https" then 443 else 80
  {
  }

  lemma {:induction false} CheckedPartsExactly(lib: Library, parts: Parts, o: Origin)
    requires lib.acceptsNetloc(parts.netloc)
    ensures CheckedParts(lib, parts) == Ok(o) <==>
      PartsPass(parts) && o.scheme == parts.scheme && Addresses(lib, parts.netloc, o)
  {
    var host, port := CanonicalHost(lib, Hostname(lib, parts.netloc)), Port(parts.netloc);
    JudgedExactly(parts, port, host, o);
    forall h ensures host == Ok(h) <==> Canonicalizes(lib, Hostname(lib, parts.netloc), h) {
      HostExactly(lib, Hostname(lib, parts.netloc), h);
    }
    if host.Ok? && host.value.text == o.host {
      assert Canonicalizes(lib, Hostname(lib, parts.netloc), Host(o.host, host.value.loopback));
    }
  }

  // ---- from the value to its parts

  lemma {:induction false} AcceptedIsWritten(lib: Library, value: string, o: Origin)
    requires LawfulLower(lib) && Checked(lib, value) == Ok(o)
    ensures !HasBadCharacter(Strip(value))
    ensures exists scheme, netloc, path, mark, hash ::
      WrittenFor(lib, Strip(value), o, scheme, netloc, path, mark, hash)
  {
    AcceptedSplits(lib, value);
    var text, parts := Strip(value), PartsOf(lib, value).value;
    AcceptedHasAuthority(lib, parts);
    var rest := SplitScheme(text).1;
    AuthorityIs(lib, text, rest);
    CheckedPartsExactly(lib, parts, o);
    var scheme := SchemeText(text);
    var netloc, tail := AuthorityText(lib, text, rest);
    var path, mark, hash := TailText(tail);
    WebExactly(scheme, o.scheme);
    assert Written(text, scheme, netloc, path, mark, hash);
    assert WrittenFor(lib, text, o, scheme, netloc, path, mark, hash);
  }

  lemma {:induction false} AcceptedHasAuthority(lib: Library, parts: Parts)
    requires LawfulLower(lib) && CheckedParts(lib, parts).Ok?
    ensures parts.netloc != "" && PartsPass(parts)
  {
    JudgedExactly(parts, Port(parts.netloc), CanonicalHost(lib, Hostname(lib, parts.netloc)),
                  CheckedParts(lib, parts).value);
    if parts.netloc == "" { NothingIsNoHost(lib); }
  }

  lemma {:induction false} NothingIsNoHost(lib: Library)
    requires LawfulLower(lib)
    ensures CanonicalHost(lib, Hostname(lib, "")).Err?
  {
    NotFound("", '@');
    NotFound("", '[');
    NotFound("", ':');
    NotFound("", '%');
    var none := "";
    assert Ascii(none) && lib.lower(none) == LowerAscii(none) == "";
  }

  lemma {:induction false} SchemeText(text: string) returns (scheme: string)
    requires SplitScheme(text).0 != ""
    ensures text == scheme + [':'] + SplitScheme(text).1 && LowerAscii(scheme) == SplitScheme(text).0
  {
    var i := IndexOf(text, ':');
    scheme := text[..i];
  }

  lemma {:induction false} AuthorityText(lib: Library, text: string, rest: string)
      returns (netloc: string, tail: string)
    requires UrlSplit(lib, text).Some? && SplitScheme(text).1 == rest && UrlSplit(lib, text).value.netloc != ""
    ensures rest == "//" + (netloc + tail) && netloc == UrlSplit(lib, text).value.netloc && NoEnd(netloc)
    ensures var f := Partition(tail, '#'); var q := Partition(f.before, '?'); var parts := UrlSplit(lib, text).value;
            parts.path == q.before && parts.query == q.after && parts.fragment == f.after
  {
    AuthorityIs(lib, text, rest);
    StartsWithSlashes(lib, text, rest);
    netloc, tail := RestText(rest);
    TailIsSplit(lib, text, rest, tail);
  }

  lemma {:induction false} RestText(rest: string) returns (netloc: string, tail: string)
    requires |rest| >= 2 && rest[..2] == "//"
    ensures rest == "//" + (netloc + tail) && NoEnd(netloc)
    ensures NetlocEnd(rest[2..]) <= |rest[2..]|
    ensures netloc == rest[2..][..NetlocEnd(rest[2..])] && tail == rest[2..][NetlocEnd(rest[2..])..]
  {
    var after := rest[2..];
    NetlocEndsBefore(after);
    netloc, tail := after[..NetlocEnd(after)], after[NetlocEnd(after)..];
    assert netloc + tail == after && rest == rest[..2] + after;
  }

  lemma {:induction false} StartsWithSlashes(lib: Library, text: string, rest: string)
    requires UrlSplit(lib, text).Some? && SplitScheme(text).1 == rest && UrlSplit(lib, text).value.netloc != ""
    ensures |rest| >= 2 && rest[..2] == "//"
  {
  }

  lemma {:induction false} TailIsSplit(lib: Library, text: string, rest: string, tail: string)
    requires UrlSplit(lib, text).Some? && SplitScheme(text).1 == rest && |rest| >= 2 && rest[..2] == "//"
    requires tail == rest[2..][NetlocEnd(rest[2..])..]
    ensures var f := Partition(tail, '#'); var q := Partition(f.before, '?'); var parts := UrlSplit(lib, text).value;
            parts.path == q.before && parts.query == q.after && parts.fragment == f.after
  {
    assert tail == rest[2 + NetlocEnd(rest[2..])..];
  }

  lemma {:induction false} TailText(tail: string) returns (path: string, mark: string, hash: string)
    requires var f := Partition(tail, '#'); var q := Partition(f.before, '?');
             (q.before == "" || q.before == "/") && q.after == "" && f.after == ""
    ensures tail == path + mark + hash && Nothing(path, mark, hash)
  {
    var f := Partition(tail, '#');
    var q := Partition(f.before, '?');
    path, mark, hash := q.before, if q.found then "?" else "", if f.found then "#" else "";
    CutRejoins(tail, '#');
    CutRejoins(f.before, '?');
  }

  lemma {:induction false} CutRejoins(s: string, sep: char)
    ensures var cut := Partition(s, sep); s == cut.before + (if cut.found then [sep] else []) + cut.after
  {
  }

  // ---- and back

  lemma {:induction false} WrittenIsAccepted(
      lib: Library, value: string, o: Origin, scheme: string, netloc: string, path: string, mark: string, hash: string)
    requires !HasBadCharacter(Strip(value)) && WrittenFor(lib, Strip(value), o, scheme, netloc, path, mark, hash)
    ensures Checked(lib, value) == Ok(o)
  {
    var text, parts := Strip(value), Parts(o.scheme, netloc, path, "", "");
    SchemeReads(scheme, o.scheme, "//" + (netloc + (path + mark + hash)));
    WrittenSplits(lib, text, o.scheme, netloc, path, mark, hash);
    CheckedSplits(lib, value, parts);
    CheckedPartsExactly(lib, parts, o);
  }

  lemma {:induction false} WrittenSplits(
      lib: Library, text: string, scheme: string, netloc: string, path: string, mark: string, hash: string)
    requires SplitScheme(text) == (scheme, "//" + (netloc + (path + mark + hash)))
    requires !HasBadCharacter(text) && lib.acceptsNetloc(netloc) && NoEnd(netloc) && Nothing(path, mark, hash)
    ensures UrlSplit(lib, text) == Some(Parts(scheme, netloc, path, "", ""))
  {
    TailReads(path, mark, hash);
    NetlocStops(netloc, path + mark + hash);
    TextSplits(lib, text, scheme, netloc, path + mark + hash, path);
  }

  lemma {:induction false} WebExactly(scheme: string, lower: string)
    requires lower == "https" || lower == "http"
    ensures Web(scheme, lower) <==> LowerAscii(scheme) == lower
  {
    AnyCaseExactly(scheme, lower);
  }

  /** A scheme that lowercases to `http` or `https` is all letters. */
  lemma {:induction false} SchemeReads(scheme: string, lower: string, rest: string)
    requires Web(scheme, lower)
    ensures SplitScheme(scheme + [':'] + rest) == (lower, rest)
  {
    var text := scheme + [':'] + rest;
    WebExactly(scheme, lower);
    forall i | 0 <= i < |scheme| ensures SchemeChar(scheme[i]) && scheme[i] != ':' {
      assert 'a' <= lower[i] <= 'z';
    }
    assert ':' !in scheme;
    IndexOfFirst(scheme, ':', rest);
    assert text[..|scheme|] == scheme && text[|scheme| + 1..] == rest;
  }

  lemma {:induction false} TailReads(path: string, mark: string, hash: string)
    requires Nothing(path, mark, hash)
    ensures var f := Partition(path + mark + hash, '#'); f.before == path + mark && f.after == ""
    ensures var q := Partition(path + mark, '?'); q.before == path && q.after == ""
  {
    CutReads(path + mark, '#', hash);
    CutReads(path, '?', mark);
  }

  lemma {:induction false} CutReads(s: string, sep: char, end: string)
    requires sep !in s && (end == "" || end == [sep])
    ensures Partition(s + end, sep).before == s && Partition(s + end, sep).after == ""
  {
    if end == "" {
      assert s + end == s;
      NotFound(s, sep);
    } else {
      assert s + end == s + [sep] + [];
      PartitionFirst(s, sep, []);
    }
  }

  lemma {:induction false} NetlocStops(netloc: string, tail: string)
    requires NoEnd(netloc) && (tail == "" || tail[0] == '/' || tail[0] == '?' || tail[0] == '#')
    ensures NetlocEnd(netloc + tail) == |netloc|
  {
    var s, i := netloc + tail, NetlocEnd(netloc + tail);
    assert forall k :: 0 <= k < |netloc| ==> s[k] == netloc[k] && netloc[k] in netloc;
    assert tail != "" ==> s[|netloc|] == tail[0];
  }

  lemma {:induction false} TextSplits(
      lib: Library, text: string, scheme: string, netloc: string, tail: string, path: string)
    requires SplitScheme(text) == (scheme, "//" + (netloc + tail)) && lib.acceptsNetloc(netloc)
    requires NetlocEnd(netloc + tail) == |netloc| && !HasBadCharacter(text)
    requires var f := Partition(tail, '#'); var q := Partition(f.before, '?');
             q.before == path && q.after == "" && f.after == ""
    ensures UrlSplit(lib, text) == Some(Parts(scheme, netloc, path, "", ""))
  {
    var rest := "//" + (netloc + tail);
    assert rest[..2] == "//" && rest[2..] == netloc + tail;
    assert rest[2..2 + |netloc|] == netloc && rest[2 + |netloc|..] == tail;
  }

  // ---- authorities

  /** An authority without credentials shows the host before its colon and the port text after it; brackets
      come off a literal, and only a colon after them starts a port. */
  lemma {:induction false} AuthorityShows(host: string, port: string)
    requires '@' !in host && '@' !in port && '[' !in port
    ensures '[' !in host && ':' !in host ==> HostInfo(host) == (host, "") && HostInfo(host + ":" + port) == (host, port)
    ensures ']' !in host && '[' !in host ==>
      HostInfo("[" + host + "]") == (host, "") && HostInfo("[" + host + "]" + ":" + port) == (host, port)
  {
    if '[' !in host && ':' !in host { PlainShows(host, port); }
    if ']' !in host && '[' !in host { BracketsShow(host, port); }
  }

  lemma {:induction false} PlainShows(host: string, port: string)
    requires '@' !in host && '@' !in port && '[' !in port && '[' !in host && ':' !in host
    ensures HostInfo(host) == (host, "") && HostInfo(host + ":" + port) == (host, port)
  {
    var whole := host + ":" + port;
    assert whole == host + [':'] + port;
    NotFound(host, '@');
    NotFound(whole, '@');
    NotFound(host, '[');
    NotFound(whole, '[');
    NotFound(host, ':');
    PartitionFirst(host, ':', port);
  }

  lemma {:induction false} BracketsShow(host: string, port: string)
    requires '@' !in host && '@' !in port && ']' !in host
    ensures HostInfo("[" + host + "]") == (host, "") && HostInfo("[" + host + "]" + ":" + port) == (host, port)
  {
    Bracketed(host, "", "", "[" + host + "]");
    assert ":" + port == [] + [':'] + port;
    PartitionFirst([], ':', port);
    assert "[" + host + "]" + ":" + port == "[" + host + "]" + (":" + port);
    Bracketed(host, ":" + port, port, "[" + host + "]" + ":" + port);
  }

  lemma {:induction false} Bracketed(host: string, after: string, port: string, netloc: string)
    requires '@' !in host && '@' !in after && ']' !in host
    requires netloc == "[" + host + "]" + after && Partition(after, ':').after == port
    ensures HostInfo(netloc) == (host, port)
  {
    var inside := host + [']'] + after;
    assert netloc == [] + ['['] + inside;
    NotFound(netloc, '@');
    PartitionFirst([], '[', inside);
    PartitionFirst(host, ']', after);
  }

  /** No port text is no port; digits up to 65535 are theirs; anything else is refused. */
  lemma {:induction false} PortReadsExactly(netloc: string)
    ensures var text := HostInfo(netloc).1;
            && (Port(netloc) == Ok(None) <==> text == "")
            && (forall n :: Port(netloc) == Ok(Some(n)) <==> Digits(text) && DecimalValue(text) == n && n <= 65535)
  {
  }

  // ---- hosts

  /** `raw` without one dot at its end, if it has one. */
  predicate Stem(raw: string, h: string) { raw == h + "." || (raw == h && (h == "" || h[|h| - 1] != '.')) }

  /** An IPv6 literal with no zone, unmapped, in brackets; an IPv4 literal; or a hostname as it is. */
  ghost predicate Canonicalizes(lib: Library, raw: string, host: Host) {
    if ':' in raw then
      && '%' !in raw && lib.parseIp(raw).Some? && !lib.parseIp(raw).value.mapped
      && host == Host("[" + lib.parseIp(raw).value.compressed + "]", lib.parseIp(raw).value.loopback)
    else
      raw != "" && Ascii(raw) && exists h :: Stem(raw, h) && Names(lib, h, host)
  }

  ghost predicate Names(lib: Library, h: string, host: Host) {
    match lib.parseIp(h)
    case Some(a) => host == Host(a.compressed, a.loopback)
    case None => Dotted(h) && |h| <= 253 && host == Host(h, h == "localhost")
  }

  lemma {:induction false} HostExactly(lib: Library, raw: string, host: Host)
    ensures CanonicalHost(lib, raw) == Ok(host) <==> Canonicalizes(lib, raw, host)
  {
    if ':' !in raw {
      var h := WithoutFinalDot(raw);
      StemExactly(raw);
      HostnameExactly(h);
      assert Names(lib, h, host) <==> (match lib.parseIp(h)
                                       case Some(a) => host == Host(a.compressed, a.loopback)
                                       case None => IsHostname(h) && host == Host(h, h == "localhost"));
    }
  }

  lemma {:induction false} StemExactly(raw: string)
    ensures forall h :: Stem(raw, h) <==> h == WithoutFinalDot(raw)
  {
    forall h | Stem(raw, h) ensures h == WithoutFinalDot(raw) { assert raw == h + "." ==> raw[..|raw| - 1] == h; }
    if raw != "" && raw[|raw| - 1] == '.' { assert raw == raw[..|raw| - 1] + "."; }
  }

  /** A hostname, character by character: letters, digits, hyphens and dots; no dot or hyphen at either end or
      next to a dot; and a dot in every 64 characters. */
  ghost predicate Dotted(h: string) {
    && h != "" && All(h, HostChar)
    && (forall i :: 0 <= i < |h| && h[i] == '.' ==> 0 < i < |h| - 1 && h[i + 1] != '.')
    && (forall i :: 0 <= i < |h| && h[i] == '-' ==> 0 < i < |h| - 1 && h[i - 1] != '.' && h[i + 1] != '.')
    && (forall i :: DotIn64(h, i))
  }

  /** The 64 characters from `i` on, where there are as many, have a dot among them. */
  predicate DotIn64(h: string, i: int) { 0 <= i <= |h| - 64 ==> '.' in h[i..i + 64] }

  lemma {:induction false} HostnameExactly(h: string)
    ensures IsHostname(h) <==> Dotted(h) && |h| <= 253
  {
    LabelsExactly(h);
  }

  predicate Labels(h: string) { forall i :: 0 <= i < |Split(h, '.')| ==> IsLabel(Split(h, '.')[i]) }

  lemma {:induction false} LabelsExactly(h: string)
    ensures Labels(h) <==> Dotted(h)
    decreases |h|
  {
    var i := IndexOf(h, '.');
    if i == |h| {
      LoneLabels(h);
      LoneLabel(h);
    } else {
      LabelsExactly(h[i + 1..]);
      CutExactly(h, h[..i], h[i + 1..]);
    }
  }

  lemma {:induction false} CutExactly(h: string, first: string, rest: string)
    requires '.' !in first && h == first + ['.'] + rest && (Labels(rest) <==> Dotted(rest))
    ensures Labels(h) <==> Dotted(h)
  {
    SplitFirst(first, '.', rest);
    FirstLabel(h, first, rest);
    DottedFirst(h, first, rest);
  }

  lemma {:induction false} FirstLabel(h: string, first: string, rest: string)
    requires Split(h, '.') == [first] + Split(rest, '.')
    ensures Labels(h) <==> IsLabel(first) && Labels(rest)
  {
    var parts := Split(h, '.');
    assert parts[0] == first;
    forall k | 0 <= k < |Split(rest, '.')| ensures Split(rest, '.')[k] == parts[k + 1] {}
  }

  lemma {:induction false} LoneLabels(h: string)
    requires IndexOf(h, '.') == |h|
    ensures '.' !in h && (Labels(h) <==> IsLabel(h))
  {
    assert Split(h, '.') == [h];
    assert Labels(h) ==> IsLabel(Split(h, '.')[0]);
  }

  lemma {:induction false} LoneLabel(h: string)
    requires '.' !in h
    ensures IsLabel(h) <==> Dotted(h)
  {
    if |h| >= 64 { assert !DotIn64(h, 0); }
  }

  lemma {:induction false} DottedFirst(h: string, first: string, rest: string)
    requires h == first + "." + rest && '.' !in first
    ensures Dotted(h) <==> IsLabel(first) && Dotted(rest)
  {
    if Dotted(h) {
      FirstOfDotted(h, first, rest);
      RestOfDotted(h, first, rest);
    }
    if IsLabel(first) && Dotted(rest) { LabelThenDotted(h, first, rest); }
  }

  lemma {:induction false} FirstOfDotted(h: string, first: string, rest: string)
    requires h == first + "." + rest && '.' !in first && Dotted(h)
    ensures IsLabel(first)
  {
    assert h[|first|] == '.';
    assert forall k :: 0 <= k < |first| ==> h[k] == first[k] && first[k] in first;
    if |first| >= 64 {
      LongLabel(h, first);
    }
  }

  lemma {:induction false} LongLabel(h: string, first: string)
    requires first <= h && '.' !in first && |first| >= 64
    ensures !DotIn64(h, 0)
  {
    assert h[0..64] == first[0..64];
  }

  lemma {:induction false} RestOfDotted(h: string, first: string, rest: string)
    requires h == first + "." + rest && Dotted(h)
    ensures Dotted(rest)
  {
    var n := |first| + 1;
    assert h[n - 1] == '.';
    assert forall k :: 0 <= k < |rest| ==> rest[k] == h[k + n];
    forall k ensures DotIn64(rest, k) {
      if 0 <= k <= |rest| - 64 {
        assert DotIn64(h, k + n);
        assert rest[k..k + 64] == h[k + n..k + n + 64];
      }
    }
  }

  lemma {:induction false} LabelThenDotted(h: string, first: string, rest: string)
    requires h == first + "." + rest && IsLabel(first) && Dotted(rest)
    ensures Dotted(h)
  {
    var n := |first| + 1;
    assert forall k :: 0 <= k < |h| ==> h[k] == if k < n - 1 then first[k] else if k == n - 1 then '.' else rest[k - n];
    forall k ensures DotIn64(h, k) {
      if 0 <= k <= |h| - 64 {
        if k < n {
          assert h[k..k + 64][n - 1 - k] == '.';
        } else {
          assert DotIn64(rest, k - n);
          assert h[k..k + 64] == rest[k - n..k - n + 64];
        }
      }
    }
  }
}
