/** UTF-8 as Python's strict codec reads it (RFC 3629, section 3): shortest form only, no surrogates. */
module Utf8 {
  import opened Wrappers

  type Byte = b: int | 0 <= b < 256

  function EncodeChar(c: char): (bs: seq<Byte>)
    ensures 1 <= |bs| <= 4
  {
    var n := c as int;
    if n < 0x80 then [n]
    else if n < 0x800 then [0xC0 + n / 0x40, 0x80 + n % 0x40]
    else if n < 0x10000 then [0xE0 + n / 0x1000, 0x80 + n / 0x40 % 0x40, 0x80 + n % 0x40]
    else [0xF0 + n / 0x40000, 0x80 + n / 0x1000 % 0x40, 0x80 + n / 0x40 % 0x40, 0x80 + n % 0x40]
  }

  function Encode(s: string): seq<Byte> {
    if s == [] then [] else EncodeChar(s[0]) + Encode(s[1..])
  }

  predicate Continues(b: Byte) { 0x80 <= b < 0xC0 }

  datatype Lead = Lead(c: char, width: nat)

  function Two(a: int, b: int): int { (a - 0xC0) * 0x40 + (b - 0x80) }

  function Three(a: int, b: int, c: int): int { (a - 0xE0) * 0x1000 + (b - 0x80) * 0x40 + (c - 0x80) }

  function Four(a: int, b: int, c: int, d: int): int {
    (a - 0xF0) * 0x40000 + (b - 0x80) * 0x1000 + (c - 0x80) * 0x40 + (d - 0x80)
  }

  /** The first character of `bs`, or nothing when no well-formed sequence starts there. */
  function DecodeLead(bs: seq<Byte>): (r: Option<Lead>)
    requires bs != []
    ensures r.Some? ==> 1 <= r.value.width <= |bs| && r.value.width <= 4
  {
    var a := bs[0];
    if a < 0x80 then Some(Lead(a as char, 1))
    else if 0xC2 <= a < 0xE0 && |bs| >= 2 && Continues(bs[1]) then
      Some(Lead(Two(a, bs[1]) as char, 2))
    else if 0xE0 <= a < 0xF0 && |bs| >= 3 && Continues(bs[1]) && Continues(bs[2]) then
      var n := Three(a, bs[1], bs[2]);
      if n < 0x800 || 0xD800 <= n < 0xE000 then None else Some(Lead(n as char, 3))
    else if 0xF0 <= a < 0xF5 && |bs| >= 4 && Continues(bs[1]) && Continues(bs[2]) && Continues(bs[3]) then
      var n := Four(a, bs[1], bs[2], bs[3]);
      if n < 0x10000 || n >= 0x110000 then None else Some(Lead(n as char, 4))
    else None
  }

  function Decode(bs: seq<Byte>): Option<string>
    decreases |bs|
  {
    if bs == [] then Some("") else
    match DecodeLead(bs)
    case None => None
    case Some(lead) =>
      match Decode(bs[lead.width..])
      case None => None
      case Some(rest) => Some([lead.c] + rest)
  }

  lemma {:induction false} LeadOfEncoded(c: char, rest: seq<Byte>)
    ensures DecodeLead(EncodeChar(c) + rest) == Some(Lead(c, |EncodeChar(c)|))
  {
    var n := c as int;
    var bs := EncodeChar(c) + rest;
    assert forall i :: 0 <= i < |EncodeChar(c)| ==> bs[i] == EncodeChar(c)[i];
    if n < 0x80 {
    } else if n < 0x800 {
      assert Two(bs[0], bs[1]) == n;
    } else if n < 0x10000 {
      SplitThree(n);
      assert Three(bs[0], bs[1], bs[2]) == n;
    } else {
      SplitFour(n);
      assert Four(bs[0], bs[1], bs[2], bs[3]) == n;
    }
  }

  lemma {:induction false} SplitThree(n: nat)
    ensures n == n / 0x1000 * 0x1000 + n / 0x40 % 0x40 * 0x40 + n % 0x40
  {
  }

  lemma {:induction false} SplitFour(n: nat)
    ensures n == n / 0x40000 * 0x40000 + n / 0x1000 % 0x40 * 0x1000 + n / 0x40 % 0x40 * 0x40 + n % 0x40
  {
    var high := n / 0x40;
    SplitThree(high);
    assert high / 0x1000 == n / 0x40000 && high / 0x40 == n / 0x1000;
  }

  lemma {:induction false} JoinThree(x: nat, y: nat, z: nat)
    requires y < 0x40 && z < 0x40
    ensures var n := x * 0x1000 + y * 0x40 + z;
            n / 0x1000 == x && n / 0x40 % 0x40 == y && n % 0x40 == z
  {
    assert (x * 0x1000 + y * 0x40 + z) / 0x40 == x * 0x40 + y;
  }

  lemma {:induction false} JoinFour(w: nat, x: nat, y: nat, z: nat)
    requires x < 0x40 && y < 0x40 && z < 0x40
    ensures var n := w * 0x40000 + x * 0x1000 + y * 0x40 + z;
            n / 0x40000 == w && n / 0x1000 % 0x40 == x && n / 0x40 % 0x40 == y && n % 0x40 == z
  {
    var n := w * 0x40000 + x * 0x1000 + y * 0x40 + z;
    assert n / 0x40 == (w * 0x40 + x) * 0x40 + y;
    assert n / 0x1000 == w * 0x40 + x;
  }

  lemma {:induction false} EncodedLead(bs: seq<Byte>)
    requires bs != [] && DecodeLead(bs).Some?
    ensures EncodeChar(DecodeLead(bs).value.c) == bs[..DecodeLead(bs).value.width]
  {
    var w := DecodeLead(bs).value.width;
    if w == 3 {
      JoinThree(bs[0] - 0xE0, bs[1] - 0x80, bs[2] - 0x80);
    } else if w == 4 {
      JoinFour(bs[0] - 0xF0, bs[1] - 0x80, bs[2] - 0x80, bs[3] - 0x80);
    }
  }

  /** Every string survives encoding and strict decoding. */
  lemma {:induction false} RoundTrip(s: string)
    ensures Decode(Encode(s)) == Some(s)
  {
    if s != [] {
      var bs := Encode(s);
      assert bs == EncodeChar(s[0]) + Encode(s[1..]);
      LeadOfEncoded(s[0], Encode(s[1..]));
      assert bs[|EncodeChar(s[0])|..] == Encode(s[1..]);
      RoundTrip(s[1..]);
      assert [s[0]] + s[1..] == s;
    }
  }

  /** The strict decoder accepts exactly one byte spelling of each string. */
  lemma {:induction false} DecodeIsExact(bs: seq<Byte>)
    requires Decode(bs).Some?
    ensures Encode(Decode(bs).value) == bs
    decreases |bs|
  {
    if bs != [] {
      DecodeFirst(bs);
      var lead := DecodeLead(bs).value;
      var rest := bs[lead.width..];
      DecodeIsExact(rest);
      EncodeFirst(lead.c, Decode(rest).value);
    }
  }

  lemma {:induction false} DecodeFirst(bs: seq<Byte>)
    requires bs != [] && Decode(bs).Some?
    ensures DecodeLead(bs).Some?
    ensures var lead := DecodeLead(bs).value; var rest := bs[lead.width..];
            && Decode(rest).Some? && Decode(bs).value == [lead.c] + Decode(rest).value
            && bs == EncodeChar(lead.c) + rest
  {
    EncodedLead(bs);
    var w := DecodeLead(bs).value.width;
    assert bs == bs[..w] + bs[w..];
  }

  lemma {:induction false} EncodeFirst(c: char, rest: string)
    ensures Encode([c] + rest) == EncodeChar(c) + Encode(rest)
  {
    assert ([c] + rest)[1..] == rest;
  }

  lemma {:induction false} EncodeConcat(a: string, b: string)
    ensures Encode(a + b) == Encode(a) + Encode(b)
  {
    if a == [] {
      assert a + b == b;
    } else {
      assert (a + b)[1..] == a[1..] + b;
      EncodeConcat(a[1..], b);
    }
  }
}
