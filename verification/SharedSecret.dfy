/** The operator's shared secret: the shortest repeating unit, and what is refused at boot. */
module SharedSecret {
  import opened Wrappers
  import opened Lists
  import opened PyText

  function Repeat<T>(unit: seq<T>, n: nat): seq<T> {
    if n == 0 then [] else unit + Repeat(unit, n - 1)
  }

  predicate OccursAt<T(==)>(text: seq<T>, word: seq<T>, at: nat) {
    at + |word| <= |text| && text[at..at + |word|] == word
  }

  /** `text.find(word, start)`, or `-1`. */
  function Find<T(==)>(text: seq<T>, word: seq<T>, start: nat): (at: int)
    ensures at == -1 || (at >= start && OccursAt(text, word, at))
    ensures forall k :: start <= k && (at == -1 || k < at) ==> !OccursAt(text, word, k)
    decreases |text| - start
  {
    if start + |word| > |text| then -1
    else if OccursAt(text, word, start) then start
    else Find(text, word, start + 1)
  }

  function RepeatingUnit<T(==)>(value: seq<T>): seq<T> {
    var period := Find(value + value, value, 1);
    if period >= |value| || period < 0 then value else value[..period]
  }

  /** `value` is unchanged by rotating its first `p` elements to the end. */
  predicate Rotates<T(==)>(value: seq<T>, p: nat) {
    p <= |value| && value[p..] + value[..p] == value
  }

  lemma {:induction false} OccurrenceIsRotation<T>(value: seq<T>, p: nat)
    requires p <= |value|
    ensures OccursAt(value + value, value, p) <==> Rotates(value, p)
  {
    assert (value + value)[p..p + |value|] == value[p..] + value[..p];
  }

  lemma {:induction false} RotationShifts<T>(value: seq<T>, p: nat)
    requires Rotates(value, p)
    ensures forall i :: 0 <= i && i + p < |value| ==> value[i] == value[i + p]
    ensures forall i :: |value| <= i + p < 2 * |value| && i < |value| ==> value[i] == value[i + p - |value|]
  {
    var rotated := value[p..] + value[..p];
    assert forall i :: 0 <= i < |value| ==> value[i] == rotated[i];
  }

  /** Rotations that fix a word are closed under difference. */
  lemma {:induction false} RotationDifference<T>(value: seq<T>, p: nat, q: nat)
    requires Rotates(value, p) && Rotates(value, q) && p <= q
    ensures Rotates(value, q - p)
  {
    RotationShifts(value, p);
    RotationShifts(value, q);
    var n, d := |value|, q - p;
    var rotated := value[d..] + value[..d];
    forall i | 0 <= i < n ensures rotated[i] == value[i] {
      // Shifting `i` by `q` and shifting `i + d` by `p` land on the same element.
      var target := if i + q < n then i + q else i + q - n;
      assert value[i] == value[target];
      if i + d < n {
        assert value[i + d] == value[target];
      } else {
        assert value[i + d - n] == value[target];
      }
    }
  }

  /** The smallest fixing rotation divides the length. */
  lemma {:induction false} LeastRotationDivides<T>(value: seq<T>, p: nat, q: nat) returns (k: nat)
    requires 1 <= p && Rotates(value, p) && Rotates(value, q)
    requires forall r :: 1 <= r < p ==> !Rotates(value, r)
    ensures q == k * p
    decreases q
  {
    if q == 0 {
      k := 0;
    } else {
      assert q >= p;
      RotationDifference(value, p, q);
      var j := LeastRotationDivides(value, p, q - p);
      k := j + 1;
      assert k * p == j * p + p;
    }
  }

  /** A word fixed by rotating `p`, where `p` divides its length, repeats its first `p` elements. */
  lemma {:induction false} RotationRepeats<T>(value: seq<T>, p: nat, k: nat)
    requires 1 <= p && |value| == k * p
    requires forall i :: 0 <= i && i + p < |value| ==> value[i] == value[i + p]
    ensures k >= 1 ==> p <= |value| && value == Repeat(value[..p], k)
    decreases k
  {
    if k >= 1 {
      assert |value| == p + (k - 1) * p;
      var rest := value[p..];
      forall i | 0 <= i && i + p < |rest| ensures rest[i] == rest[i + p] {
        assert value[i + p] == value[i + p + p];
      }
      RotationRepeats(rest, p, k - 1);
      if k >= 2 {
        assert |rest| == p + (k - 2) * p;
        assert rest[..p] == value[..p];
      } else {
        assert rest == [];
      }
      assert value == value[..p] + rest;
    }
  }

  lemma {:induction false} RepeatCommutes<T>(unit: seq<T>, n: nat)
    ensures unit + Repeat(unit, n) == Repeat(unit, n) + unit
  {
    if n > 0 {
      RepeatCommutes(unit, n - 1);
      assert unit + Repeat(unit, n) == unit + (Repeat(unit, n - 1) + unit);
    }
  }

  lemma {:induction false} RepetitionRotates<T>(unit: seq<T>, n: nat)
    requires n >= 1
    ensures Rotates(Repeat(unit, n), |unit|)
  {
    var value := Repeat(unit, n);
    RepeatCommutes(unit, n - 1);
    assert value[|unit|..] == Repeat(unit, n - 1) && value[..|unit|] == unit;
  }

  /** The unit found is the shortest: the value is a repetition of it, and of nothing shorter. */
  lemma {:induction false} RepeatingUnitIsShortest<T>(value: seq<T>) returns (n: nat)
    requires value != []
    ensures n >= 1 && value == Repeat(RepeatingUnit(value), n)
    ensures forall unit: seq<T>, m: nat :: |unit| < |RepeatingUnit(value)| ==> Repeat(unit, m) != value
  {
    var period := LeastPeriod(value);
    n := PeriodRepeats(value, period);
    forall unit: seq<T>, m: nat | |unit| < period ensures Repeat(unit, m) != value {
      NothingShorterRepeats(value, period, unit, m);
    }
  }

  lemma {:induction false} PeriodRepeats<T>(value: seq<T>, period: nat) returns (n: nat)
    requires value != [] && 1 <= period <= |value| && Rotates(value, period)
    requires forall r :: 1 <= r < period ==> !Rotates(value, r)
    ensures n >= 1 && value == Repeat(value[..period], n)
  {
    assert Rotates(value, |value|) by { assert value[|value|..] + value[..|value|] == value; }
    n := LeastRotationDivides(value, period, |value|);
    RotationShifts(value, period);
    RotationRepeats(value, period, n);
    assert n != 0;
  }

  lemma {:induction false} NothingShorterRepeats<T>(value: seq<T>, period: nat, unit: seq<T>, m: nat)
    requires value != [] && |unit| < period
    requires forall r :: 1 <= r < period ==> !Rotates(value, r)
    ensures Repeat(unit, m) != value
  {
    if m >= 1 {
      RepetitionRotates(unit, m);
      if unit == [] { EmptyRepeats<T>(m); }
    }
  }

  lemma {:induction false} EmptyRepeats<T>(m: nat)
    ensures Repeat<T>([], m) == []
  {
    if m > 0 { EmptyRepeats<T>(m - 1); }
  }

  lemma {:induction false} LeastPeriod<T>(value: seq<T>) returns (period: nat)
    requires value != []
    ensures 1 <= period <= |value| && Rotates(value, period) && RepeatingUnit(value) == value[..period]
    ensures forall r :: 1 <= r < period ==> !Rotates(value, r)
  {
    OccurrenceIsRotation(value, |value|);
    assert Rotates(value, |value|);
    period := Find(value + value, value, 1);
    forall r | 1 <= r <= |value| ensures OccursAt(value + value, value, r) <==> Rotates(value, r) {
      OccurrenceIsRotation(value, r);
    }
    assert value[..|value|] == value;
  }

  // ---- what is refused

  /** A Python string may hold lone surrogates, which Dafny's `char` excludes. */
  type CodePoint = c: int | 0 <= c < 0x110000
  type Text = seq<CodePoint>

  const MIN_SECRET_LENGTH := 32

  function Points(s: string): Text { seq(|s|, i requires 0 <= i < |s| => s[i] as int) }

  const PLACEHOLDER_SECRETS: set<Text> := {
    Points("better-auth-secret-12345678901234567890"), Points("change-me"), Points("changeme"),
    Points("credential"), Points("default"), Points("example"), Points("password"),
    Points("placeholder"), Points("secret"), Points("supersecret"), Points("test"), Points("todo"),
    Points("your-secret"), Points("your-secret-here")
  }

  predicate Encodable(value: Text) { forall c :: c in value ==> !(0xD800 <= c < 0xE000) }

  datatype Refusal = Empty | Whitespace | NotEncodable | Placeholder | TooShort | Repetition(unit: nat)

  function Refused(value: Text, casefold: Text -> Text): Option<Refusal> {
    if Trim(value, IsSpaceCode) == [] then Some(Empty)
    else if value != Trim(value, IsSpaceCode) then Some(Whitespace)
    else if !Encodable(value) then Some(NotEncodable)
    else if casefold(value) in PLACEHOLDER_SECRETS then Some(Placeholder)
    else if |value| < MIN_SECRET_LENGTH then Some(TooShort)
    else
      var unit := |RepeatingUnit(value)|;
      if unit < MIN_SECRET_LENGTH then Some(Repetition(unit)) else None
  }

  ghost predicate RepeatsShortUnit(value: Text) {
    exists unit: Text, n: nat :: |unit| < 32 && value == Repeat(unit, n)
  }

  /** A secret is accepted exactly when it is trimmed, encodable, no placeholder, and not a repetition
      of any unit under 32 characters. Being too short is one such repetition: of itself, once. */
  lemma {:induction false} AcceptedExactly(value: Text, casefold: Text -> Text)
    ensures Refused(value, casefold).None? <==>
      && value != [] && Trimmed(value, IsSpaceCode)
      && (forall i :: 0 <= i < |value| ==> !(0xD800 <= value[i] <= 0xDFFF))
      && casefold(value) !in PLACEHOLDER_SECRETS && !RepeatsShortUnit(value)
  {
    NoSurrogates(value);
    PassesExactly(value, casefold);
    if value != [] {
      ShortUnitExactly(value);
      if |value| < MIN_SECRET_LENGTH { RepeatsItself(value); }
    }
  }

  lemma {:induction false} PassesExactly(value: Text, casefold: Text -> Text)
    ensures Refused(value, casefold).None? <==>
      && value != [] && Trimmed(value, IsSpaceCode) && Encodable(value)
      && casefold(value) !in PLACEHOLDER_SECRETS && |value| >= 32 && |RepeatingUnit(value)| >= 32
  {
    TrimmedExactly(value);
  }

  lemma {:induction false} TrimmedExactly(value: Text)
    ensures Trim(value, IsSpaceCode) == value <==> Trimmed(value, IsSpaceCode)
  {
    if Trimmed(value, IsSpaceCode) { TrimId(value, IsSpaceCode); }
  }

  lemma {:induction false} NoSurrogates(value: Text)
    ensures Encodable(value) <==> forall i :: 0 <= i < |value| ==> !(0xD800 <= value[i] <= 0xDFFF)
  {
    assert forall i :: 0 <= i < |value| ==> value[i] in value;
  }

  lemma {:induction false} RepeatsItself(value: Text)
    requires |value| < MIN_SECRET_LENGTH
    ensures RepeatsShortUnit(value)
  {
    assert Repeat(value, 0) == [];
    assert Repeat(value, 1) == value + [] == value;
  }

  lemma {:induction false} ShortUnitExactly(value: Text)
    requires value != []
    ensures |RepeatingUnit(value)| < MIN_SECRET_LENGTH <==> RepeatsShortUnit(value)
  {
    var n := RepeatingUnitIsShortest(value);
    if |RepeatingUnit(value)| < MIN_SECRET_LENGTH {
      assert value == Repeat(RepeatingUnit(value), n);
    }
  }

  /** The reported unit is the shortest one, for every value refused as a repetition. */
  lemma {:induction false} ReportedUnitIsShortest(value: Text, casefold: Text -> Text, unit: Text, n: nat)
    requires Refused(value, casefold).Some? && Refused(value, casefold).value.Repetition?
    requires value == Repeat(unit, n)
    ensures Refused(value, casefold).value.unit <= |unit|
  {
    var period := LeastPeriod(value);
    if |unit| < period { NothingShorterRepeats(value, period, unit, n); }
  }
}
