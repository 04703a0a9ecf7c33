/** Python text primitives: `str.isspace`, ASCII `str.lower`, and decimal integers. */
module PyText {
  import opened Lists

  /** The code points for which `str.isspace` answers `True`. */
  predicate IsSpaceCode(c: int) {
    || 0x09 <= c <= 0x0d || 0x1c <= c <= 0x20 || c == 0x85 || c == 0xa0 || c == 0x1680
    || 0x2000 <= c <= 0x200a || c == 0x2028 || c == 0x2029 || c == 0x202f || c == 0x205f || c == 0x3000
  }

  predicate IsSpace(c: char) { IsSpaceCode(c as int) }

  function Strip(s: string): string { Trim(s, IsSpace) }

  predicate IsAscii(c: char) { c as int < 0x80 }

  predicate Ascii(s: string) { forall c :: c in s ==> IsAscii(c) }

  function LowerChar(c: char): char {
    if 'A' <= c <= 'Z' then (c as int + 32) as char else c
  }

  function LowerAscii(s: string): (r: string)
    ensures |r| == |s| && forall i :: 0 <= i < |s| ==> r[i] == LowerChar(s[i])
  {
    if s == [] then [] else [LowerChar(s[0])] + LowerAscii(s[1..])
  }

  /** `lower` in any case. */
  predicate AnyCase(text: string, lower: string) {
    |text| == |lower| && forall i :: 0 <= i < |text| ==>
      text[i] == lower[i] || ('A' <= text[i] <= 'Z' && text[i] as int + 32 == lower[i] as int)
  }

  lemma {:induction false} AnyCaseExactly(text: string, lower: string)
    requires forall i :: 0 <= i < |lower| ==> !('A' <= lower[i] <= 'Z')
    ensures LowerAscii(text) == lower <==> AnyCase(text, lower)
  {
    var r := LowerAscii(text);
    assert forall i :: 0 <= i < |text| ==> r[i] == LowerChar(text[i]);
  }

  predicate IsDigit(c: char) { '0' <= c <= '9' }

  predicate Digits(s: string) { s != [] && forall c :: c in s ==> IsDigit(c) }

  /** `f"{n}"`. */
  function Decimal(n: nat): (s: string)
    ensures Digits(s)
  {
    if n < 10 then [('0' as int + n) as char]
    else Decimal(n / 10) + [('0' as int + n % 10) as char]
  }

  /** `int(s)` for a string of ASCII digits; leading zeros are read and dropped. */
  function DecimalValue(s: string): nat
    requires forall c :: c in s ==> IsDigit(c)
  {
    if s == [] then 0
    else
      var last := s[|s| - 1];
      assert IsDigit(last);
      10 * DecimalValue(s[..|s| - 1]) + (last as int - '0' as int)
  }

  lemma {:induction false} DecimalRoundTrip(n: nat)
    ensures DecimalValue(Decimal(n)) == n
  {
    var s := Decimal(n);
    if n < 10 {
      assert s[..0] == [];
    } else {
      assert s[..|s| - 1] == Decimal(n / 10);
      DecimalRoundTrip(n / 10);
    }
  }
}
