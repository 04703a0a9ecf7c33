/** `normalize_base_url`: one spelling of an origin, on a concrete `urlsplit`. */
module Urls {
  import opened Wrappers
  import opened Lists
  import opened PyText

  const MAX_HOST_LENGTH := 253
  const MAX_PORT := 65535

  /** What `ipaddress.ip_address` makes of a literal. `mapped` is an IPv4-mapped IPv6 address. */
  datatype Address = Address(compressed: string, loopback: bool, mapped: bool)

  /** The library's own judgement: IP parsing, Unicode lowercasing, and which authorities `urlsplit`
      refuses (unbalanced or malformed brackets, characters that normalize into delimiters). */
  datatype Library = Library(
    parseIp: string -> Option<Address>, lower: string -> string, acceptsNetloc: string -> bool)

  predicate V6Char(c: char) { IsDigit(c) || 'a' <= c <= 'f' || c == ':' }

  predicate V4Char(c: char) { IsDigit(c) || c == '.' }

  predicate HostChar(c: char) { 'a' <= c <= 'z' || IsDigit(c) || c == '-' || c == '.' }

  predicate LabelChar(c: char) { HostChar(c) && c != '.' }

  predicate AuthorityChar(c: char) { HostChar(c) || c == ':' }

  predicate All(s: string, p: char -> bool) { forall i :: 0 <= i < |s| ==> p(s[i]) }

  /** Lowercasing is ASCII lowercasing on ASCII text, and leaves no ASCII capital. */
  ghost predicate LawfulLower(lib: Library) {
    && (forall s :: Ascii(s) ==> lib.lower(s) == LowerAscii(s))
    && (forall s :: Ascii(lib.lower(s)) ==> LowerAscii(lib.lower(s)) == lib.lower(s))
  }

  /** A compressed address parses back to itself, and is written in its family's characters. */
  ghost predicate LawfulIp(lib: Library) {
    forall s :: lib.parseIp(s).Some? ==> LawfulAddress(lib, s, lib.parseIp(s).value)
  }

  ghost predicate LawfulAddress(lib: Library, s: string, a: Address) {
    && lib.parseIp(a.compressed) == Some(a)
    && (':' !in s ==> a.compressed != "" && All(a.compressed, V4Char) && a.compressed[|a.compressed| - 1] != '.')
    && (':' in s && '%' !in s && !a.mapped ==> ':' in a.compressed && All(a.compressed, V6Char))
  }

  /** Plain authorities, and bracketed IPv6 literals, are not refused by `urlsplit`. */
  ghost predicate LawfulNetloc(lib: Library) {
    && (forall s :: All(s, AuthorityChar) ==> lib.acceptsNetloc(s))
    && (forall s, port :: lib.parseIp(s).Some? && All(s, V6Char) && PortText(port) ==>
          lib.acceptsNetloc("[" + s + "]" + port))
  }

  /** What is assumed of the library. */
  ghost predicate Lawful(lib: Library) { LawfulLower(lib) && LawfulIp(lib) && LawfulNetloc(lib) }

  predicate PortText(port: string) { port == "" || (port[0] == ':' && Digits(port[1..])) }

  // ---- urlsplit

  datatype Parts = Parts(scheme: string, netloc: string, path: string, query: string, fragment: string)

  predicate SchemeChar(c: char) {
    'a' <= c <= 'z' || 'A' <= c <= 'Z' || IsDigit(c) || c == '+' || c == '-' || c == '.'
  }

  /** The scheme, lowercased, and what follows its colon; no scheme when that is not one. */
  function SplitScheme(text: string): (string, string) {
    var i := IndexOf(text, ':');
    if 0 < i < |text| && ('a' <= text[0] <= 'z' || 'A' <= text[0] <= 'Z') && All(text[..i], SchemeChar)
    then (LowerAscii(text[..i]), text[i + 1..])
    else ("", text)
  }

  /** Up to the first of the characters that end an authority. */
  function NetlocEnd(s: string): (i: nat)
    ensures i <= |s| && forall j :: 0 <= j < i ==> s[j] !in "/?#"
    ensures i < |s| ==> s[i] in "/?#"
  {
    if s == "" || s[0] in "/?#" then 0 else 1 + NetlocEnd(s[1..])
  }

  function UrlSplit(lib: Library, text: string): Option<Parts> {
    var (scheme, rest) := SplitScheme(text);
    var hasNetloc := |rest| >= 2 && rest[..2] == "//";
    var end := if hasNetloc then NetlocEnd(rest[2..]) else 0;
    var netloc := if hasNetloc then rest[2..2 + end] else "";
    var tail := if hasNetloc then rest[2 + end..] else rest;
    if hasNetloc && !lib.acceptsNetloc(netloc) then None
    else
      var f := Partition(tail, '#');
      var q := Partition(f.before, '?');
      Some(Parts(scheme, netloc, q.before, q.after, f.after))
  }

  /** Host and port text, as the split result derives them from the authority. */
  function HostInfo(netloc: string): (string, string) {
    var info := RPartition(netloc, '@').after;
    var open := Partition(info, '[');
    if open.found then
      var closed := Partition(open.after, ']');
      (closed.before, Partition(closed.after, ':').after)
    else
      var cut := Partition(info, ':');
      (cut.before, cut.after)
  }

  /** The host lowercased, a zone identifier left as it is. */
  function Hostname(lib: Library, netloc: string): string {
    var cut := Partition(HostInfo(netloc).0, '%');
    lib.lower(cut.before) + if cut.found then "%" + cut.after else ""
  }

  /** No port, a port in range, or a `ValueError`. */
  function Port(netloc: string): Result<Option<nat>, ()> {
    var text := HostInfo(netloc).1;
    if text == "" then Ok(None)
    else if !Digits(text) || DecimalValue(text) > MAX_PORT then Err(())
    else Ok(Some(DecimalValue(text)))
  }

  // ---- normalize_base_url

  datatype Refusal =
    | BadCharacters | Unusable | NoScheme | BadScheme | Credentials | NoHost | BadIp | NonAsciiHost | BadHost
    | Cleartext | PortZero | HasPath | HasQuery | HasFragment

  datatype Host = Host(text: string, loopback: bool)

  /** The compiled pattern's language: labels of 1 to 63 letters, digits and hyphens, no hyphen at an end. */
  predicate IsHostname(host: string) {
    |host| <= MAX_HOST_LENGTH && forall i :: 0 <= i < |Split(host, '.')| ==> IsLabel(Split(host, '.')[i])
  }

  predicate IsLabel(part: string) {
    1 <= |part| <= 63 && All(part, LabelChar) && part[0] != '-' && part[|part| - 1] != '-'
  }

  function WithoutFinalDot(s: string): string { if s != "" && s[|s| - 1] == '.' then s[..|s| - 1] else s }

  function CanonicalHost(lib: Library, raw: string): Result<Host, Refusal> {
    if raw == "" then Err(NoHost)
    else if ':' in raw then
      match if '%' in raw then None else lib.parseIp(raw)
      case None => Err(BadIp)
      case Some(a) => if a.mapped then Err(BadIp) else Ok(Host("[" + a.compressed + "]", a.loopback))
    else if !Ascii(raw) then Err(NonAsciiHost)
    else
      var host := WithoutFinalDot(raw);
      match lib.parseIp(host)
      case Some(a) => Ok(Host(a.compressed, a.loopback))
      case None => if IsHostname(host) then Ok(Host(host, host == "localhost")) else Err(BadHost)
  }

  function DefaultPort(scheme: string): nat { if scheme == "https" then 443 else 80 }

  predicate HasBadCharacter(text: string) {
    exists i :: 0 <= i < |text| && (IsSpace(text[i]) || text[i] as int < 0x20 || text[i] as int == 0x7f)
  }

  /** An accepted origin: `port` is the effective one. */
  datatype Origin = Origin(scheme: string, host: string, port: nat)

  function Checked(lib: Library, value: string): Result<Origin, Refusal> {
    var text := Strip(value);
    if HasBadCharacter(text) then Err(BadCharacters)
    else match UrlSplit(lib, text)
      case None => Err(Unusable)
      case Some(parts) => CheckedParts(lib, parts)
  }

  function CheckedParts(lib: Library, parts: Parts): Result<Origin, Refusal> {
    Judged(parts, Port(parts.netloc), CanonicalHost(lib, Hostname(lib, parts.netloc)))
  }

  /** The checks in their order, on what the authority's port and host came to. */
  function Judged(parts: Parts, port: Result<Option<nat>, ()>, judged: Result<Host, Refusal>): Result<Origin, Refusal> {
    if port.Err? then Err(Unusable)
    else if parts.scheme == "" then Err(NoScheme)
    else if parts.scheme != "https" && parts.scheme != "http" then Err(BadScheme)
    else if '@' in parts.netloc then Err(Credentials)
    else
      match judged
      case Err(r) => Err(r)
      case Ok(host) =>
        if parts.scheme == "http" && !host.loopback then Err(Cleartext)
        else if port.value == Some(0) then Err(PortZero)
        else if parts.path != "" && parts.path != "/" then Err(HasPath)
        else if parts.query != "" then Err(HasQuery)
        else if parts.fragment != "" then Err(HasFragment)
        else Ok(Origin(parts.scheme, host.text,
                       if port.value.Some? then port.value.value else DefaultPort(parts.scheme)))
  }

  function PrintPort(o: Origin): string { if o.port == DefaultPort(o.scheme) then "" else ":" + Decimal(o.port) }

  function Print(o: Origin): string { o.scheme + "://" + o.host + PrintPort(o) }

  function Normalize(lib: Library, value: string): Result<string, Refusal> {
    match Checked(lib, value)
    case Err(r) => Err(r)
    case Ok(o) => Ok(Print(o))
  }

  // ---- what an accepted origin looks like

  /** A host in canonical spelling: an IPv6 literal in brackets, or an IPv4 literal or hostname. */
  ghost predicate CanonicalText(lib: Library, host: string, loopback: bool) {
    || (|host| >= 2 && host[0] == '[' && host[|host| - 1] == ']'
        && var c := host[1..|host| - 1];
           && ':' in c && All(c, V6Char) && lib.parseIp(c) == Some(Address(c, loopback, false)))
    || (host != "" && All(host, HostChar) && host[|host| - 1] != '.'
        && match lib.parseIp(host)
           case Some(a) => a.compressed == host && a.loopback == loopback
           case None => IsHostname(host) && loopback == (host == "localhost"))
  }

  lemma {:induction false} V4IsHost(s: string)
    requires All(s, V4Char)
    ensures All(s, HostChar)
  {
  }

  lemma {:induction false} NoColonIn(s: string)
    requires All(s, HostChar)
    ensures ':' !in s && '[' !in s && '@' !in s && '%' !in s && Ascii(s)
  {
  }

  lemma {:induction false} HostnameChars(host: string)
    requires IsHostname(host)
    ensures host != "" && All(host, HostChar) && host[|host| - 1] != '.'
  {
    LabelsJoin(host);
  }

  lemma {:induction false} LabelsJoin(host: string)
    requires forall i :: 0 <= i < |Split(host, '.')| ==> IsLabel(Split(host, '.')[i])
    ensures host != "" && All(host, HostChar) && host[|host| - 1] != '.'
    decreases |host|
  {
    var i := IndexOf(host, '.');
    assert IsLabel(Split(host, '.')[0]);
    if i < |host| {
      var rest := host[i + 1..];
      assert Split(host, '.') == [host[..i]] + Split(rest, '.');
      forall k | 0 <= k < |Split(rest, '.')| ensures IsLabel(Split(rest, '.')[k]) {
        assert Split(rest, '.')[k] == Split(host, '.')[k + 1];
      }
      LabelsJoin(rest);
      assert host == host[..i] + "." + rest;
    }
  }

  /** Whatever is accepted as a host is canonical. */
  lemma {:induction false} HostIsCanonical(lib: Library, raw: string)
    requires LawfulIp(lib) && CanonicalHost(lib, raw).Ok?
    ensures var h := CanonicalHost(lib, raw).value; CanonicalText(lib, h.text, h.loopback)
  {
    var h := CanonicalHost(lib, raw).value;
    if ':' in raw {
      var a := lib.parseIp(raw).value;
      assert LawfulAddress(lib, raw, a);
      assert h.text[1..|h.text| - 1] == a.compressed;
      assert a == Address(a.compressed, a.loopback, false);
    } else {
      var host := WithoutFinalDot(raw);
      assert ':' !in host;
      match lib.parseIp(host) {
        case Some(a) =>
          assert LawfulAddress(lib, host, a);
          V4IsHost(a.compressed);
        case None => HostnameChars(host);
      }
    }
  }

  /** The raw host that a canonical one is read as: an IPv6 literal loses its brackets. */
  function Inner(host: string): string {
    if |host| >= 2 && host[0] == '[' then host[1..|host| - 1] else host
  }

  /** A canonical host, read as a raw one, is itself. */
  lemma {:induction false} CanonicalIsFixed(lib: Library, host: string, loopback: bool)
    requires CanonicalText(lib, host, loopback)
    ensures CanonicalHost(lib, Inner(host)) == Ok(Host(host, loopback))
  {
    if host[0] == '[' {
      var c := host[1..|host| - 1];
      assert "[" + c + "]" == host;
      assert '%' !in c;
    } else {
      NoColonIn(host);
    }
  }

  // ---- printing an origin and reading it back

  ghost predicate Accepted(lib: Library, o: Origin, loopback: bool) {
    && (o.scheme == "https" || o.scheme == "http") && (o.scheme == "http" ==> loopback)
    && CanonicalText(lib, o.host, loopback) && 1 <= o.port <= MAX_PORT
  }

  lemma {:induction false} CheckedIsAccepted(lib: Library, value: string) returns (loopback: bool)
    requires LawfulIp(lib) && Checked(lib, value).Ok?
    ensures Accepted(lib, Checked(lib, value).value, loopback)
  {
    loopback := PartsAreAccepted(lib, UrlSplit(lib, Strip(value)).value);
  }

  lemma {:induction false} PartsAreAccepted(lib: Library, parts: Parts) returns (loopback: bool)
    requires LawfulIp(lib) && CheckedParts(lib, parts).Ok?
    ensures Accepted(lib, CheckedParts(lib, parts).value, loopback)
  {
    var raw := Hostname(lib, parts.netloc);
    PartsShape(lib, parts);
    HostIsCanonical(lib, raw);
    loopback := CanonicalHost(lib, raw).value.loopback;
  }

  lemma {:induction false} PartsShape(lib: Library, parts: Parts)
    requires CheckedParts(lib, parts).Ok?
    ensures var o, host := CheckedParts(lib, parts).value, CanonicalHost(lib, Hostname(lib, parts.netloc));
            && host.Ok? && o.host == host.value.text
            && (o.scheme == "https" || (o.scheme == "http" && host.value.loopback)) && 1 <= o.port <= MAX_PORT
  {
    PortInRange(parts.netloc);
    JudgedShape(parts, Port(parts.netloc), CanonicalHost(lib, Hostname(lib, parts.netloc)));
  }

  lemma {:induction false} JudgedShape(parts: Parts, port: Result<Option<nat>, ()>, host: Result<Host, Refusal>)
    requires Judged(parts, port, host).Ok? && (port.Ok? && port.value.Some? ==> port.value.value <= MAX_PORT)
    ensures var o := Judged(parts, port, host).value;
            && host.Ok? && o.host == host.value.text
            && (o.scheme == "https" || (o.scheme == "http" && host.value.loopback)) && 1 <= o.port <= MAX_PORT
  {
  }

  lemma {:induction false} PortInRange(netloc: string)
    ensures Port(netloc).Ok? && Port(netloc).value.Some? ==> Port(netloc).value.value <= MAX_PORT
  {
  }

  predicate UrlChar(c: char) { AuthorityChar(c) || c == '/' || c == '[' || c == ']' }

  function Authority(o: Origin): string { o.host + PrintPort(o) }

  lemma {:induction false} PortChars(o: Origin)
    ensures All(PrintPort(o), AuthorityChar) && PortText(PrintPort(o))
  {
    var digits := Decimal(o.port);
    forall i | 0 <= i < |digits| ensures IsDigit(digits[i]) { assert digits[i] in digits; }
    if PrintPort(o) != "" { assert PrintPort(o)[1..] == digits; }
  }

  lemma {:induction false} AuthorityChars(lib: Library, o: Origin, loopback: bool)
    requires Accepted(lib, o, loopback)
    ensures All(Authority(o), UrlChar) && '/' !in Authority(o) && '?' !in Authority(o) && '#' !in Authority(o)
    ensures '@' !in Authority(o)
  {
    PortChars(o);
    if o.host[0] == '[' {
      var c := o.host[1..|o.host| - 1];
      forall i | 0 < i < |o.host| - 1 ensures V6Char(o.host[i]) { assert o.host[i] == c[i - 1]; }
    }
    forall i | 0 <= i < |Authority(o)| ensures UrlChar(Authority(o)[i]) && Authority(o)[i] != '/' {
      if i >= |o.host| { assert Authority(o)[i] == PrintPort(o)[i - |o.host|]; }
    }
  }

  lemma {:induction false} AuthorityIsAccepted(lib: Library, o: Origin, loopback: bool)
    requires LawfulNetloc(lib) && Accepted(lib, o, loopback)
    ensures lib.acceptsNetloc(Authority(o))
  {
    PortChars(o);
    if o.host[0] == '[' {
      var c := o.host[1..|o.host| - 1];
      assert o.host == "[" + c + "]";
    } else {
      forall i | 0 <= i < |Authority(o)| ensures AuthorityChar(Authority(o)[i]) {
        if i >= |o.host| { assert Authority(o)[i] == PrintPort(o)[i - |o.host|]; }
      }
    }
  }

  lemma {:induction false} NetlocEndsAtEnd(s: string)
    requires '/' !in s && '?' !in s && '#' !in s
    ensures NetlocEnd(s) == |s|
  {
    var i := NetlocEnd(s);
    assert forall k :: 0 <= k < |s| ==> s[k] in s;
  }

  lemma {:induction false} SchemeSplits(scheme: string, rest: string)
    requires scheme == "https" || scheme == "http"
    ensures SplitScheme(scheme + [':'] + rest) == (scheme, rest)
  {
    var text := scheme + [':'] + rest;
    IndexOfFirst(scheme, ':', rest);
    assert text[..|scheme|] == scheme && text[|scheme| + 1..] == rest;
    assert All(scheme, SchemeChar);
    LowerIsFixed(scheme);
  }

  lemma {:induction false} LowerIsFixed(s: string)
    requires forall i :: 0 <= i < |s| ==> !('A' <= s[i] <= 'Z')
    ensures LowerAscii(s) == s
  {
  }

  lemma {:induction false} OriginSplits(lib: Library, text: string, scheme: string, netloc: string)
    requires SplitScheme(text) == (scheme, "//" + netloc)
    requires lib.acceptsNetloc(netloc) && NetlocEnd(netloc) == |netloc|
    ensures UrlSplit(lib, text) == Some(Parts(scheme, netloc, "", "", ""))
  {
    var rest := "//" + netloc;
    assert rest[..2] == "//" && rest[2..] == netloc;
    assert rest[2..2 + |netloc|] == netloc && rest[2 + |netloc|..] == "";
    NotFound("", '#');
    NotFound("", '?');
  }

  lemma {:induction false} PrintedSplits(lib: Library, o: Origin, loopback: bool)
    requires LawfulNetloc(lib) && Accepted(lib, o, loopback)
    ensures UrlSplit(lib, Print(o)) == Some(Parts(o.scheme, Authority(o), "", "", ""))
  {
    PrintedNetloc(lib, o, loopback);
    SchemeOfOrigin(o.scheme, Authority(o));
    PrintIsAuthority(o);
    OriginSplits(lib, Print(o), o.scheme, Authority(o));
  }

  lemma {:induction false} PrintedNetloc(lib: Library, o: Origin, loopback: bool)
    requires LawfulNetloc(lib) && Accepted(lib, o, loopback)
    ensures lib.acceptsNetloc(Authority(o)) && NetlocEnd(Authority(o)) == |Authority(o)|
  {
    AuthorityIsAccepted(lib, o, loopback);
    AuthorityChars(lib, o, loopback);
    NetlocEndsAtEnd(Authority(o));
  }

  lemma {:induction false} PrintIsAuthority(o: Origin)
    ensures Print(o) == o.scheme + "://" + Authority(o)
  {
  }

  lemma {:induction false} SchemeOfOrigin(scheme: string, netloc: string)
    requires scheme == "https" || scheme == "http"
    ensures SplitScheme(scheme + "://" + netloc) == (scheme, "//" + netloc)
  {
    SchemeSplits(scheme, "//" + netloc);
    assert scheme + "://" + netloc == scheme + [':'] + ("//" + netloc);
  }

  lemma {:induction false} NotFound(s: string, c: char)
    requires c !in s
    ensures Partition(s, c) == Cut(s, false, []) && RPartition(s, c) == Cut([], false, s)
  {
    assert forall k :: 0 <= k < |s| ==> s[k] in s;
  }

  function RawHost(o: Origin): string { Inner(o.host) }

  function PortDigits(o: Origin): string { if o.port == DefaultPort(o.scheme) then "" else Decimal(o.port) }

  lemma {:induction false} RawChars(lib: Library, o: Origin, loopback: bool)
    requires Accepted(lib, o, loopback)
    ensures All(RawHost(o), AuthorityChar)
    ensures o.host[0] == '[' ==> o.host == "[" + RawHost(o) + "]" && ']' !in RawHost(o)
    ensures o.host[0] != '[' ==> All(o.host, HostChar)
  {
    if o.host[0] == '[' {
      var c := o.host[1..|o.host| - 1];
      assert forall i :: 0 <= i < |c| ==> V6Char(c[i]);
    }
  }

  lemma {:induction false} PrintedHostInfo(lib: Library, o: Origin, loopback: bool)
    requires Accepted(lib, o, loopback)
    ensures HostInfo(Authority(o)) == (RawHost(o), PortDigits(o))
  {
    AuthorityChars(lib, o, loopback);
    RawChars(lib, o, loopback);
    NotFound(Authority(o), '@');
    if o.host[0] == '[' { BracketedHostInfo(o); } else { PlainHostInfo(o); }
  }

  lemma {:induction false} BracketedHostInfo(o: Origin)
    requires o.host == "[" + RawHost(o) + "]" && ']' !in RawHost(o) && '@' !in Authority(o)
    ensures HostInfo(Authority(o)) == (RawHost(o), PortDigits(o))
  {
    var netloc, port, c := Authority(o), PrintPort(o), RawHost(o);
    NotFound(netloc, '@');
    assert netloc == [] + ['['] + (c + [']'] + port);
    PartitionFirst([], '[', c + [']'] + port);
    PartitionFirst(c, ']', port);
    assert [] + port == port;
    PortReads(o, []);
  }

  lemma {:induction false} PlainHostInfo(o: Origin)
    requires All(o.host, HostChar) && '@' !in Authority(o)
    ensures HostInfo(Authority(o)) == (o.host, PortDigits(o))
  {
    var netloc := Authority(o);
    NotFound(netloc, '@');
    NoColonIn(o.host);
    PortChars(o);
    assert forall i :: 0 <= i < |PrintPort(o)| ==> AuthorityChar(PrintPort(o)[i]);
    NotFound(netloc, '[');
    PortReads(o, o.host);
  }

  lemma {:induction false} PortReads(o: Origin, before: string)
    requires ':' !in before
    ensures Partition(before + PrintPort(o), ':').before == before
    ensures Partition(before + PrintPort(o), ':').after == PortDigits(o)
  {
    if PrintPort(o) == "" {
      assert before + PrintPort(o) == before;
      NotFound(before, ':');
    } else {
      assert before + PrintPort(o) == before + [':'] + Decimal(o.port);
      PartitionFirst(before, ':', Decimal(o.port));
    }
  }

  lemma {:induction false} PrintedHostname(lib: Library, o: Origin, loopback: bool)
    requires LawfulLower(lib) && Accepted(lib, o, loopback)
    ensures Hostname(lib, Authority(o)) == RawHost(o)
  {
    PrintedHostInfo(lib, o, loopback);
    RawChars(lib, o, loopback);
    var raw := RawHost(o);
    PlainText(raw);
    NotFound(raw, '%');
    LowerIsFixed(raw);
  }

  lemma {:induction false} PlainText(s: string)
    requires All(s, AuthorityChar)
    ensures '%' !in s && Ascii(s) && forall i :: 0 <= i < |s| ==> !('A' <= s[i] <= 'Z')
  {
  }

  lemma {:induction false} PrintedPort(lib: Library, o: Origin, loopback: bool)
    requires Accepted(lib, o, loopback)
    ensures Port(Authority(o)) == Ok(if o.port == DefaultPort(o.scheme) then None else Some(o.port))
  {
    PrintedHostInfo(lib, o, loopback);
    DecimalRoundTrip(o.port);
  }

  lemma {:induction false} PrintedChars(lib: Library, o: Origin, loopback: bool)
    requires Accepted(lib, o, loopback)
    ensures All(Print(o), UrlChar) && Print(o) != ""
  {
    AuthorityChars(lib, o, loopback);
    var text, n := Print(o), |o.scheme| + 3;
    PrintIsAuthority(o);
    forall i | 0 <= i < |text| ensures UrlChar(text[i]) {
      if i >= n { assert text[i] == Authority(o)[i - n]; }
    }
  }

  lemma {:induction false} PrintedIsClean(text: string)
    requires All(text, UrlChar)
    ensures Strip(text) == text && !HasBadCharacter(text)
  {
    TrimId(text, IsSpace);
  }

  /** A printed origin is read back as the origin it is. */
  lemma {:induction false} PrintedReadsBack(lib: Library, o: Origin, loopback: bool)
    requires Lawful(lib) && Accepted(lib, o, loopback)
    ensures Checked(lib, Print(o)) == Ok(o)
  {
    PrintedChars(lib, o, loopback);
    PrintedIsClean(Print(o));
    PrintedSplits(lib, o, loopback);
    PrintedPartsReadBack(lib, o, loopback);
  }

  lemma {:induction false} PrintedPartsReadBack(lib: Library, o: Origin, loopback: bool)
    requires LawfulLower(lib) && Accepted(lib, o, loopback)
    ensures CheckedParts(lib, Parts(o.scheme, Authority(o), "", "", "")) == Ok(o)
  {
    PrintedPort(lib, o, loopback);
    PrintedHostname(lib, o, loopback);
    CanonicalIsFixed(lib, o.host, loopback);
    AuthorityChars(lib, o, loopback);
    PartsPass(lib, o, Authority(o), RawHost(o), loopback);
  }

  lemma {:induction false} PartsPass(lib: Library, o: Origin, netloc: string, raw: string, loopback: bool)
    requires o.scheme == "https" || (o.scheme == "http" && loopback)
    requires o.port >= 1 && '@' !in netloc
    requires Port(netloc) == Ok(if o.port == DefaultPort(o.scheme) then None else Some(o.port))
    requires Hostname(lib, netloc) == raw && CanonicalHost(lib, raw) == Ok(Host(o.host, loopback))
    ensures CheckedParts(lib, Parts(o.scheme, netloc, "", "", "")) == Ok(o)
  {
  }

  /** Normalizing is idempotent wherever it succeeds. */
  lemma {:induction false} NormalizeIsIdempotent(lib: Library, value: string)
    requires Lawful(lib) && Normalize(lib, value).Ok?
    ensures Normalize(lib, Normalize(lib, value).value) == Normalize(lib, value)
  {
    var loopback := CheckedIsAccepted(lib, value);
    PrintedReadsBack(lib, Checked(lib, value).value, loopback);
  }

  /** Two accepted inputs normalize to one string exactly when scheme, canonical host and effective port
      agree. */
  lemma {:induction false} NormalizeIsCanonical(lib: Library, value: string, other: string)
    requires Lawful(lib) && Checked(lib, value).Ok? && Checked(lib, other).Ok?
    ensures Normalize(lib, value) == Normalize(lib, other) <==> Checked(lib, value) == Checked(lib, other)
  {
    var l := CheckedIsAccepted(lib, value);
    var m := CheckedIsAccepted(lib, other);
    PrintedReadsBack(lib, Checked(lib, value).value, l);
    PrintedReadsBack(lib, Checked(lib, other).value, m);
  }
}
