/** Standard base64 (RFC 4648, section 4) as `b64encode` and a validating `b64decode` compute it. */
module Base64 {
  import opened Wrappers
  import opened Lists
  import opened Utf8

  const PAD := '='

  type Sextet = v: int | 0 <= v < 64

  predicate InAlphabet(c: char) {
    'A' <= c <= 'Z' || 'a' <= c <= 'z' || '0' <= c <= '9' || c == '+' || c == '/'
  }

  function Letter(v: Sextet): (c: char)
    ensures InAlphabet(c)
  {
    if v < 26 then ('A' as int + v) as char
    else if v < 52 then ('a' as int + v - 26) as char
    else if v < 62 then ('0' as int + v - 52) as char
    else if v == 62 then '+' else '/'
  }

  function ValueOf(c: char): (v: Sextet)
    requires InAlphabet(c)
    ensures Letter(v) == c
  {
    if 'A' <= c <= 'Z' then c as int - 'A' as int
    else if 'a' <= c <= 'z' then c as int - 'a' as int + 26
    else if '0' <= c <= '9' then c as int - '0' as int + 52
    else if c == '+' then 62 else 63
  }

  /** The alphabet of table 1: capitals, small letters, digits, `+` and `/`, in that order. */
  lemma {:induction false} LetterExactly(v: Sextet)
    ensures 0 <= v < 26 ==> Letter(v) == "ABCDEFGHIJKLMNOPQRSTUVWXYZ"[v]
    ensures 26 <= v < 52 ==> Letter(v) == "abcdefghijklmnopqrstuvwxyz"[v - 26]
    ensures 52 <= v < 62 ==> Letter(v) == "0123456789"[v - 52]
    ensures 62 <= v ==> Letter(v) == "+/"[v - 62]
  {
  }

  lemma {:induction false} ValueOfLetter(v: Sextet)
    ensures ValueOf(Letter(v)) == v
  {
  }

  function Letters(vs: seq<Sextet>): (s: string)
    ensures |s| == |vs| && AllInAlphabet(s)
  {
    seq(|vs|, i requires 0 <= i < |vs| => Letter(vs[i]))
  }

  predicate AllInAlphabet(s: string) { forall i :: 0 <= i < |s| ==> InAlphabet(s[i]) }

  function Values(s: string): seq<Sextet>
    requires AllInAlphabet(s)
  {
    seq(|s|, i requires 0 <= i < |s| => ValueOf(s[i]))
  }

  /** How many values the unused bits of the last group can take: section 3.5's non-canonical spellings. */
  function Slack(bytes: nat): (n: nat)
    ensures n >= 1
  {
    if bytes >= 3 then Slack(bytes - 3) else if bytes == 0 then 1 else if bytes == 1 then 16 else 4
  }

  /** The pads that complete the last group of four. */
  function PadCount(bytes: nat): (n: nat)
    ensures n <= 2
  {
    if bytes >= 3 then PadCount(bytes - 3) else if bytes == 0 then 0 else 3 - bytes
  }

  /** No group of sextets is a lone sextet, which could hold no byte. */
  predicate Grouped(sextets: nat) { if sextets >= 4 then Grouped(sextets - 4) else sextets != 1 }

  function PackThree(a: int, b: int, c: int): (vs: seq<Sextet>)
    requires 0 <= a < 256 && 0 <= b < 256 && 0 <= c < 256
    ensures |vs| == 4
  {
    [a / 4, a % 4 * 16 + b / 16, b % 16 * 4 + c / 64, c % 64]
  }

  function UnpackFour(p: int, q: int, r: int, t: int): (bs: seq<Byte>)
    requires 0 <= p < 64 && 0 <= q < 64 && 0 <= r < 64 && 0 <= t < 64
    ensures |bs| == 3
  {
    [p * 4 + q / 16, q % 16 * 16 + r / 4, r % 4 * 64 + t]
  }

  /** Eight-bit groups regrouped by six, the unused trailing bits holding `extra`. */
  function Pack(bs: seq<Byte>, extra: nat): seq<Sextet>
    requires extra < Slack(|bs|)
  {
    if |bs| >= 3 then PackThree(bs[0], bs[1], bs[2]) + Pack(bs[3..], extra)
    else if |bs| == 2 then
      var a: int, b: int := bs[0], bs[1];
      [a / 4, a % 4 * 16 + b / 16, b % 16 * 4 + extra]
    else if |bs| == 1 then
      var a: int := bs[0];
      [a / 4, a % 4 * 16 + extra]
    else []
  }

  /** `high` followed by the digits of `ds` in base `radix`. */
  function Number(high: int, ds: seq<int>, radix: int): int
    decreases |ds|
  {
    if ds == [] then high else Number(high * radix + ds[0], ds[1..], radix)
  }

  /** Bits keep their order: the bytes and the sextets are one number, but for the unused bits at its end. */
  lemma {:induction false} PacksInOrder(bs: seq<Byte>, extra: nat, high: int)
    requires extra < Slack(|bs|)
    ensures Number(high, Pack(bs, extra), 64) == Number(high, bs, 256) * Slack(|bs|) + extra
    decreases |bs|
  {
    if |bs| >= 3 {
      FirstInOrder(bs, extra, high);
      PacksInOrder(bs[3..], extra, ((high * 256 + bs[0]) * 256 + bs[1]) * 256 + bs[2]);
    } else {
      FewInOrder(high, bs, extra);
    }
  }

  lemma {:induction false} FirstInOrder(bs: seq<Byte>, extra: nat, high: int)
    requires |bs| >= 3 && extra < Slack(|bs|)
    ensures var front := ((high * 256 + bs[0]) * 256 + bs[1]) * 256 + bs[2];
            && Number(high, bs, 256) == Number(front, bs[3..], 256)
            && Number(high, Pack(bs, extra), 64) == Number(front, Pack(bs[3..], extra), 64)
  {
    ThreeDigits(high, bs);
    FourDigits(high, PackThree(bs[0], bs[1], bs[2]), Pack(bs[3..], extra));
    ThreeInOrder(high, bs[0], bs[1], bs[2]);
  }

  lemma {:induction false} TwoDigits(high: int, ds: seq<int>, radix: int)
    requires |ds| >= 2
    ensures Number(high, ds, radix) == Number((high * radix + ds[0]) * radix + ds[1], ds[2..], radix)
  {
    assert ds[1..][1..] == ds[2..];
    assert Number(high * radix + ds[0], ds[1..], radix)
        == Number((high * radix + ds[0]) * radix + ds[1], ds[2..], radix);
  }

  lemma {:induction false} ThreeDigits(high: int, ds: seq<int>)
    requires |ds| >= 3
    ensures Number(high, ds, 256) == Number(((high * 256 + ds[0]) * 256 + ds[1]) * 256 + ds[2], ds[3..], 256)
  {
    TwoDigits(high * 256 + ds[0], ds[1..], 256);
    assert ds[1..][2..] == ds[3..];
  }

  lemma {:induction false} FourDigits(high: int, ds: seq<int>, rest: seq<int>)
    requires |ds| == 4
    ensures Number(high, ds + rest, 64)
            == Number((((high * 64 + ds[0]) * 64 + ds[1]) * 64 + ds[2]) * 64 + ds[3], rest, 64)
  {
    var all := ds + rest;
    TwoDigits(high, all, 64);
    TwoDigits((high * 64 + ds[0]) * 64 + ds[1], all[2..], 64);
    assert all[2..][2..] == rest;
  }

  lemma {:induction false} ThreeInOrder(high: int, a: int, b: int, c: int)
    requires 0 <= a < 256 && 0 <= b < 256 && 0 <= c < 256
    ensures var vs := PackThree(a, b, c);
            (((high * 64 + vs[0]) * 64 + vs[1]) * 64 + vs[2]) * 64 + vs[3] == ((high * 256 + a) * 256 + b) * 256 + c
  {
    assert a == a / 4 * 4 + a % 4 && b == b / 16 * 16 + b % 16 && c == c / 64 * 64 + c % 64;
  }

  lemma {:induction false} FewInOrder(high: int, bs: seq<Byte>, extra: nat)
    requires |bs| < 3 && extra < Slack(|bs|)
    ensures Number(high, Pack(bs, extra), 64) == Number(high, bs, 256) * Slack(|bs|) + extra
  {
    var vs: seq<int> := Pack(bs, extra);
    if |bs| == 2 {
      TwoDigits(high, bs, 256);
      TwoDigits(high * 64 + vs[0], vs[1..], 64);
    } else if |bs| == 1 {
      TwoDigits(high, vs, 64);
    }
  }

  function Unpack(vs: seq<Sextet>): seq<Byte>
    requires Grouped(|vs|)
  {
    if |vs| >= 4 then UnpackFour(vs[0], vs[1], vs[2], vs[3]) + Unpack(vs[4..])
    else if |vs| == 3 then
      var p: int, q: int, r: int := vs[0], vs[1], vs[2];
      [p * 4 + q / 16, q % 16 * 16 + r / 4]
    else if |vs| == 2 then
      var p: int, q: int := vs[0], vs[1];
      [p * 4 + q / 16]
    else []
  }

  /** What the unused trailing bits of `vs` hold. */
  function Extra(vs: seq<Sextet>): nat {
    if |vs| == 2 then vs[1] % 16
    else if |vs| == 3 then vs[2] % 4
    else if |vs| < 4 then 0
    else Extra(vs[4..])
  }

  function Pads(n: nat): string { seq(n, _ => PAD) }

  /** The spelling of `bs` whose unused trailing bits hold `extra`. */
  function Spell(bs: seq<Byte>, extra: nat): string
    requires extra < Slack(|bs|)
  {
    Letters(Pack(bs, extra)) + Pads(PadCount(|bs|))
  }

  function Encode(bs: seq<Byte>): string { Spell(bs, 0) }

  /** Alphabet characters, then the one or two pads that complete a group of four, or nothing. */
  function Decode(s: string): Option<seq<Byte>> {
    var body := s[..IndexOf(s, PAD)];
    if Padded(s, body) && Grouped(|body|) && AllInAlphabet(body) then Some(Unpack(Values(body))) else None
  }

  predicate Padded(s: string, body: string) {
    |s| % 4 == 0 && |body| <= |s| <= |body| + 2 && s == body + Pads(|s| - |body|)
  }

  /** A complete last group is never a lone sextet, so `Decode` needs no separate check for one. */
  lemma {:induction false} CompleteIsGrouped(vs: seq<Sextet>, pads: nat)
    requires pads <= 2 && (|vs| + pads) % 4 == 0
    ensures Grouped(|vs|) && PadCount(|Unpack(vs)|) == pads
  {
    if |vs| >= 4 {
      CompleteIsGrouped(vs[4..], pads);
      assert |Unpack(vs)| == 3 + |Unpack(vs[4..])|;
    }
  }

  lemma {:induction false} PackedIsComplete(bs: seq<Byte>, extra: nat)
    requires extra < Slack(|bs|)
    ensures Grouped(|Pack(bs, extra)|) && (|Pack(bs, extra)| + PadCount(|bs|)) % 4 == 0
  {
    if |bs| >= 3 {
      PackedIsComplete(bs[3..], extra);
      assert |Pack(bs, extra)| == 4 + |Pack(bs[3..], extra)|;
    }
  }

  lemma {:induction false} UnpackFourPacked(a: Byte, b: Byte, c: Byte)
    ensures var vs := PackThree(a, b, c); UnpackFour(vs[0], vs[1], vs[2], vs[3]) == [a, b, c]
  {
    var q := a as int % 4 * 16 + b as int / 16;
    var r := b as int % 16 * 4 + c as int / 64;
    assert q / 16 == a as int % 4 && q % 16 == b as int / 16;
    assert r / 4 == b as int % 16 && r % 4 == c as int / 64;
  }

  lemma {:induction false} PackThreeUnpacked(p: Sextet, q: Sextet, r: Sextet, t: Sextet)
    ensures var bs := UnpackFour(p, q, r, t); PackThree(bs[0], bs[1], bs[2]) == [p, q, r, t]
  {
    var a := p as int * 4 + q as int / 16;
    var b := q as int % 16 * 16 + r as int / 4;
    var c := r as int % 4 * 64 + t as int;
    assert a / 4 == p && a % 4 == q as int / 16;
    assert b / 16 == q as int % 16 && b % 16 == r as int / 4;
    assert c / 64 == r as int % 4 && c % 64 == t;
  }

  lemma {:induction false} UnpackFirst(four: seq<Sextet>, rest: seq<Sextet>)
    requires |four| == 4 && Grouped(|rest|)
    ensures Grouped(|four + rest|)
    ensures Unpack(four + rest) == UnpackFour(four[0], four[1], four[2], four[3]) + Unpack(rest)
  {
    assert (four + rest)[4..] == rest;
  }

  lemma {:induction false} UnpackPacked(bs: seq<Byte>, extra: nat)
    requires extra < Slack(|bs|)
    ensures Grouped(|Pack(bs, extra)|) && Unpack(Pack(bs, extra)) == bs
  {
    PackedIsComplete(bs, extra);
    if |bs| >= 3 {
      UnpackPacked(bs[3..], extra);
      UnpackFourPacked(bs[0], bs[1], bs[2]);
      UnpackFirst(PackThree(bs[0], bs[1], bs[2]), Pack(bs[3..], extra));
      assert bs == [bs[0], bs[1], bs[2]] + bs[3..];
    } else {
      UnpackFewPacked(bs, extra);
    }
  }

  lemma {:induction false} UnpackFewPacked(bs: seq<Byte>, extra: nat)
    requires |bs| < 3 && extra < Slack(|bs|)
    ensures Unpack(Pack(bs, extra)) == bs
  {
    if |bs| == 2 { UnpackFourPacked(bs[0], bs[1], 0); }
  }

  lemma {:induction false} ExtraOfPacked(bs: seq<Byte>, extra: nat)
    requires extra < Slack(|bs|)
    ensures Extra(Pack(bs, extra)) == extra
  {
    if |bs| >= 3 {
      ExtraOfPacked(bs[3..], extra);
      assert Pack(bs, extra)[4..] == Pack(bs[3..], extra);
    }
  }

  lemma {:induction false} PackFirst(three: seq<Byte>, rest: seq<Byte>, extra: nat)
    requires |three| == 3 && extra < Slack(|rest|)
    ensures extra < Slack(|three + rest|)
    ensures Pack(three + rest, extra) == PackThree(three[0], three[1], three[2]) + Pack(rest, extra)
  {
    assert (three + rest)[3..] == rest;
  }

  lemma {:induction false} PackUnpacked(vs: seq<Sextet>)
    requires Grouped(|vs|)
    ensures Extra(vs) < Slack(|Unpack(vs)|) && Pack(Unpack(vs), Extra(vs)) == vs
  {
    if |vs| >= 4 {
      PackUnpacked(vs[4..]);
      PackThreeUnpacked(vs[0], vs[1], vs[2], vs[3]);
      PackFirst(UnpackFour(vs[0], vs[1], vs[2], vs[3]), Unpack(vs[4..]), Extra(vs[4..]));
      assert vs == [vs[0], vs[1], vs[2], vs[3]] + vs[4..];
    } else {
      PackFewUnpacked(vs);
    }
  }

  lemma {:induction false} PackFewUnpacked(vs: seq<Sextet>)
    requires |vs| < 4 && Grouped(|vs|)
    ensures Extra(vs) < Slack(|Unpack(vs)|) && Pack(Unpack(vs), Extra(vs)) == vs
  {
    if |vs| == 3 {
      PackThreeUnpacked(vs[0], vs[1], vs[2], 0);
      var r: int := vs[2];
      assert r / 4 * 4 + r % 4 == r;
    } else if |vs| == 2 {
      PackThreeUnpacked(vs[0], vs[1], 0, 0);
    }
  }

  lemma {:induction false} ValuesOfLetters(vs: seq<Sextet>)
    ensures Values(Letters(vs)) == vs
  {
    forall i | 0 <= i < |vs| ensures Values(Letters(vs))[i] == vs[i] { ValueOfLetter(vs[i]); }
  }

  lemma {:induction false} PadsStart(body: string, n: nat)
    requires AllInAlphabet(body)
    ensures IndexOf(body + Pads(n), PAD) == |body|
  {
    var s := body + Pads(n);
    assert forall i :: 0 <= i < |body| ==> s[i] == body[i];
    assert n > 0 ==> s[|body|] == PAD;
  }

  lemma {:induction false} DecodeBody(body: string, n: nat)
    requires n <= 2 && (|body| + n) % 4 == 0 && AllInAlphabet(body) && Grouped(|body|)
    ensures Decode(body + Pads(n)) == Some(Unpack(Values(body)))
  {
    var s := body + Pads(n);
    PadsStart(body, n);
    assert s[..|body|] == body;
    assert Padded(s, body);
  }

  /** Every spelling decodes to the bytes it spells. */
  lemma {:induction false} DecodeSpelling(bs: seq<Byte>, extra: nat)
    requires extra < Slack(|bs|)
    ensures Decode(Spell(bs, extra)) == Some(bs)
  {
    PackedIsComplete(bs, extra);
    UnpackPacked(bs, extra);
    DecodeLetters(Pack(bs, extra), PadCount(|bs|));
  }

  lemma {:induction false} DecodeLetters(vs: seq<Sextet>, n: nat)
    requires n <= 2 && (|vs| + n) % 4 == 0 && Grouped(|vs|)
    ensures Decode(Letters(vs) + Pads(n)) == Some(Unpack(vs))
  {
    DecodeBody(Letters(vs), n);
    ValuesOfLetters(vs);
  }

  lemma {:induction false} SpellLength(bs: seq<Byte>, extra: nat)
    requires extra < Slack(|bs|)
    ensures |Spell(bs, extra)| == (|bs| + 2) / 3 * 4
  {
    if |bs| >= 3 {
      SpellLength(bs[3..], extra);
      assert |Spell(bs, extra)| == 4 + |Spell(bs[3..], extra)|;
      assert (|bs| + 2) / 3 == (|bs| - 1) / 3 + 1;
    }
  }

  /** Nothing but the spellings of `bs` decodes to `bs`. */
  lemma {:induction false} OnlySpellingsDecode(s: string) returns (extra: nat)
    requires Decode(s).Some?
    ensures extra < Slack(|Decode(s).value|) && s == Spell(Decode(s).value, extra)
  {
    var body := s[..IndexOf(s, PAD)];
    var vs := Values(body);
    CompleteIsGrouped(vs, |s| - |body|);
    PackUnpacked(vs);
    extra := Extra(vs);
    assert Letters(vs) == body;
  }

  /** Distinct trailing bits are distinct spellings, and only `0` is the encoder's own. */
  lemma {:induction false} SpellingsDiffer(bs: seq<Byte>, x: nat, y: nat)
    requires x < Slack(|bs|) && y < Slack(|bs|) && x != y
    ensures Spell(bs, x) != Spell(bs, y)
  {
    var u, v := Pack(bs, x), Pack(bs, y);
    ExtraOfPacked(bs, x);
    ExtraOfPacked(bs, y);
    assert u != v;
    ValuesOfLetters(u);
    ValuesOfLetters(v);
    assert Spell(bs, x)[..|u|] == Letters(u) && Spell(bs, y)[..|v|] == Letters(v);
  }

  lemma {:induction false} EncodedAlphabet(bs: seq<Byte>)
    ensures forall c :: c in Encode(bs) ==> InAlphabet(c) || c == PAD
  {
  }

  lemma {:induction false} SlackByThirds(bytes: nat)
    ensures Slack(bytes) == if bytes % 3 == 0 then 1 else if bytes % 3 == 1 then 16 else 4
  {
    if bytes >= 3 { SlackByThirds(bytes - 3); }
  }

  lemma {:induction false} PadsByThirds(bytes: nat)
    ensures PadCount(bytes) == (3 - bytes % 3) % 3
  {
    if bytes >= 3 { PadsByThirds(bytes - 3); }
  }
}
