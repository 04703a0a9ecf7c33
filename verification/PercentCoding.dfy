/** `urllib.parse.unquote(errors="strict")`: one percent-decode (RFC 3986, section 2.1) and strict UTF-8. */
module PercentCoding {
  import opened Wrappers
  import opened PyText
  import opened Utf8

  predicate IsHex(c: char) { '0' <= c <= '9' || 'a' <= c <= 'f' || 'A' <= c <= 'F' }

  function HexValue(c: char): (v: nat)
    requires IsHex(c)
    ensures v < 16
  {
    if c <= '9' then c as int - '0' as int
    else if c <= 'F' then c as int - 'A' as int + 10
    else c as int - 'a' as int + 10
  }

  /** Hex digits in either case. */
  lemma {:induction false} HexExactly(c: char, v: nat)
    ensures IsHex(c) && HexValue(c) == v <==>
      v < 16 && (c == "0123456789abcdef"[v] || c == "0123456789ABCDEF"[v])
  {
  }

  /** An escape is a percent sign and two hex digits, the first the higher. */
  lemma {:induction false} EscapeExactly(s: string, v: nat)
    ensures Escape(s) && EscapeValue(s) == v <==>
      && |s| >= 3 && s[0] == '%' && v < 256
      && IsHex(s[1]) && HexValue(s[1]) == v / 16 && IsHex(s[2]) && HexValue(s[2]) == v % 16
  {
  }

  predicate Escape(s: string) { |s| >= 3 && s[0] == '%' && IsHex(s[1]) && IsHex(s[2]) }

  function EscapeValue(s: string): Byte
    requires Escape(s)
  {
    HexValue(s[1]) * 16 + HexValue(s[2])
  }

  /** Escapes become bytes; a percent sign that starts no escape stays a literal percent sign. */
  function UnquoteBytes(s: string): seq<Byte>
    requires Ascii(s)
  {
    if s == "" then []
    else if Escape(s) then [EscapeValue(s)] + UnquoteBytes(s[3..])
    else assert s[0] in s; [s[0] as int] + UnquoteBytes(s[1..])
  }

  function AsciiRun(s: string): (n: nat)
    ensures n <= |s| && Ascii(s[..n]) && (n < |s| ==> !IsAscii(s[n]))
  {
    if s == "" || !IsAscii(s[0]) then 0
    else
      var n := AsciiRun(s[1..]);
      assert s[..n + 1] == [s[0]] + s[1..][..n];
      n + 1
  }

  /** Each maximal ASCII run is decoded by itself; other characters pass through. */
  function UnquoteRuns(s: string): Option<string> {
    if s == "" then Some("")
    else
      var n := AsciiRun(s);
      var head := if n == 0 then Some([s[0]]) else Decode(UnquoteBytes(s[..n]));
      match head
      case None => None
      case Some(text) =>
        match UnquoteRuns(s[if n == 0 then 1 else n..])
        case None => None
        case Some(rest) => Some(text + rest)
  }

  function Unquote(s: string): Option<string> {
    if '%' !in s then Some(s) else UnquoteRuns(s)
  }

  /** `e` is a percent-encoding of `bs`: each byte a literal ASCII character or an escape in either case. */
  ghost predicate Spells(e: string, bs: seq<Byte>)
    decreases |bs|
  {
    if bs == [] then e == ""
    else
      || (e != "" && e[0] != '%' && e[0] as int == bs[0] && bs[0] < 0x80 && Spells(e[1..], bs[1..]))
      || (Escape(e) && EscapeValue(e) == bs[0] && Spells(e[3..], bs[1..]))
  }

  lemma {:induction false} SpellingIsAscii(e: string, bs: seq<Byte>)
    requires Spells(e, bs)
    ensures Ascii(e) && |bs| <= |e|
    decreases |bs|
  {
    if bs != [] {
      if Escape(e) {
        SpellingIsAscii(e[3..], bs[1..]);
        assert e == [e[0], e[1], e[2]] + e[3..];
      } else {
        SpellingIsAscii(e[1..], bs[1..]);
        assert e == [e[0]] + e[1..];
      }
    }
  }

  lemma {:induction false} UnquoteBytesOfSpelling(e: string, bs: seq<Byte>)
    requires Spells(e, bs) && Ascii(e)
    ensures UnquoteBytes(e) == bs
    decreases |bs|
  {
    if bs != [] {
      UnquoteBytesOfSpelling(if Escape(e) then e[3..] else e[1..], bs[1..]);
    }
  }

  /** The early exit for text with no percent sign is only a shortcut. */
  lemma {:induction false} NoPercentIsIdentity(s: string)
    requires '%' !in s
    ensures UnquoteRuns(s) == Some(s)
    decreases |s|
  {
    if s != "" {
      var n := AsciiRun(s);
      if n == 0 {
        NoPercentIsIdentity(s[1..]);
        assert [s[0]] + s[1..] == s;
      } else {
        NoPercentIsIdentity(s[n..]);
        PlainAscii(s[..n]);
        RoundTrip(s[..n]);
        assert s[..n] + s[n..] == s;
      }
    }
  }

  lemma {:induction false} PlainAscii(s: string)
    requires '%' !in s && Ascii(s)
    ensures UnquoteBytes(s) == Encode(s)
  {
    if s != "" {
      assert s[0] in s;
      PlainAscii(s[1..]);
    }
  }

  /** Every percent-encoding of a string decodes to that string, in one pass. */
  lemma {:induction false} UnquoteSpelling(e: string, s: string)
    requires Spells(e, Encode(s))
    ensures Unquote(e) == Some(s)
  {
    SpellingIsAscii(e, Encode(s));
    UnquoteBytesOfSpelling(e, Encode(s));
    RoundTrip(s);
    AsciiIsOneRun(e);
    if '%' !in e { NoPercentIsIdentity(e); }
  }

  lemma {:induction false} AsciiIsOneRun(e: string)
    requires Ascii(e)
    ensures UnquoteRuns(e) == Decode(UnquoteBytes(e))
  {
    if e != "" {
      AllAscii(e);
      assert e[..|e|] == e && e[|e|..] == "";
      assert UnquoteRuns("") == Some("");
      var head := Decode(UnquoteBytes(e));
      if head.Some? { assert head.value + "" == head.value; }
    }
  }

  lemma {:induction false} AllAscii(s: string)
    requires Ascii(s)
    ensures AsciiRun(s) == |s|
  {
    if s != "" {
      assert s[0] in s;
      AllAscii(s[1..]);
    }
  }

  /** A spelling of `a + b` is a spelling of `a` followed by one of `b`. */
  lemma {:induction false} SplitSpelling(e: string, a: seq<Byte>, b: seq<Byte>) returns (i: nat)
    requires Spells(e, a + b)
    ensures i <= |e| && Spells(e[..i], a) && Spells(e[i..], b)
    decreases |a|
  {
    if a == [] {
      assert a + b == b && e[0..] == e;
      i := 0;
    } else {
      assert (a + b)[1..] == a[1..] + b;
      var step := if Escape(e) && EscapeValue(e) == a[0] && Spells(e[3..], a[1..] + b) then 3 else 1;
      var j := SplitSpelling(e[step..], a[1..], b);
      i := step + j;
      assert e[..i][step..] == e[step..][..j] && e[i..] == e[step..][j..];
    }
  }

  /** The first percent sign of ASCII text is an escape where two hex digits follow it, and stands for itself
      where they do not. */
  lemma {:induction false} UnquoteAtPercent(a: string, rest: string)
    requires '%' !in a && Ascii(a) && Ascii(rest) && rest != "" && rest[0] == '%'
    ensures Ascii(a + rest)
    ensures UnquoteBytes(a + rest) == Encode(a) +
      if Escape(rest) then [EscapeValue(rest)] + UnquoteBytes(rest[3..]) else ['%' as int] + UnquoteBytes(rest[1..])
  {
    UnquotePlainThen(a, rest);
    PlainAscii(a);
  }

  lemma {:induction false} UnquotePlainThen(a: string, rest: string)
    requires '%' !in a && Ascii(a) && Ascii(rest)
    ensures Ascii(a + rest) && UnquoteBytes(a + rest) == UnquoteBytes(a) + UnquoteBytes(rest)
  {
    if a == "" {
      assert a + rest == rest;
    } else {
      var c, more := a[0], a[1..];
      assert c in a && a == [c] + more && a + rest == [c] + (more + rest);
      UnquotePlainThen(more, rest);
      UnquoteFirst(c, more + rest);
      UnquoteFirst(c, more);
    }
  }

  lemma {:induction false} UnquoteFirst(c: char, rest: string)
    requires c != '%' && IsAscii(c) && Ascii(rest)
    ensures Ascii([c] + rest) && UnquoteBytes([c] + rest) == [c as int] + UnquoteBytes(rest)
  {
    var s := [c] + rest;
    assert s[0] == c && s[1..] == rest;
  }

  /** A character that is not ASCII stands for itself, and the text on either side of it is decoded apart. */
  lemma {:induction false} UnquoteAtForeign(a: string, c: char, b: string)
    requires Ascii(a) && !IsAscii(c)
    ensures var before, after := Decode(UnquoteBytes(a)), UnquoteRuns(b);
            UnquoteRuns(a + [c] + b) ==
              if before.Some? && after.Some? then Some(before.value + [c] + after.value) else None
  {
    var s := a + [c] + b;
    RunOf(a, c, b);
    if a == "" {
      assert s == [c] + b && UnquoteBytes(a) == [];
      assert Decode(UnquoteBytes(a)) == Some("");
      LoneForeign(c, b);
    } else {
      assert s[..|a|] == a && s[|a|..] == [c] + b;
      LoneForeign(c, b);
      var before, after := Decode(UnquoteBytes(a)), UnquoteRuns(b);
      if before.Some? && after.Some? { assert before.value + ([c] + after.value) == before.value + [c] + after.value; }
    }
  }

  lemma {:induction false} RunOf(a: string, c: char, b: string)
    requires Ascii(a) && !IsAscii(c)
    ensures AsciiRun(a + [c] + b) == |a|
  {
    var s := a + [c] + b;
    if a != "" {
      assert s[0] == a[0] && a[0] in a && s[1..] == a[1..] + [c] + b;
      RunOf(a[1..], c, b);
    }
  }

  lemma {:induction false} LoneForeign(c: char, b: string)
    requires !IsAscii(c)
    ensures UnquoteRuns([c] + b) == match UnquoteRuns(b)
                                    case None => None
                                    case Some(after) => Some([c] + after)
  {
    assert ([c] + b)[1..] == b;
  }
}
