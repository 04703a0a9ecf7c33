/** The raw Cookie header: its pairs, and what `extract` keeps of them. */
module CookieHeader {
  import opened Wrappers
  import opened Lists
  import opened PyText
  import opened CookieChunks
  import opened MediaTypes

  const MAX_COOKIE_HEADER_BYTES := 16384
  const MAX_COOKIE_PAIRS := 512

  function PairOf(fragment: string): Option<Pair> {
    var cut := Partition(Strip(fragment), '=');
    if cut.found then Some(Pair(Strip(cut.before), Strip(cut.after))) else None
  }

  function Pairs(header: string): seq<Pair> { Collect(PairOf, Split(header, ';')) }

  method CookiePairs(header: string) returns (pairs: seq<Pair>)
    ensures pairs == Pairs(header)
  {
    var fragments := Split(header, ';');
    pairs := [];
    for i := 0 to |fragments|
      invariant pairs == Collect(PairOf, fragments[..i])
    {
      CollectNext(PairOf, fragments, i);
      var pair := PairOf(fragments[i]);
      if pair.Some? {
        pairs := pairs + [pair.value];
      }
    }
    assert fragments[..|fragments|] == fragments;
  }

  /** `"; ".join(lines)`: HTTP/2 may split one header across several lines. */
  function Join(lines: seq<string>): string {
    if lines == [] then "" else if |lines| == 1 then lines[0] else lines[0] + ";" + (" " + Join(lines[1..]))
  }

  /** The names read, with a value that is not blank. */
  predicate Readable(base: string, p: Pair) { Acceptable(base, p.name) && Strip(p.value) != "" }

  function PickReadable(base: string): Pair -> Option<Pair> {
    (p: Pair) => if Readable(base, p) then Some(p) else None
  }

  function Extract(lines: seq<string>, base: string): Option<seq<Pair>> {
    var header := Join(lines);
    if |header| > MAX_COOKIE_HEADER_BYTES then None
    else
      var pairs := Pairs(header);
      if |pairs| > MAX_COOKIE_PAIRS then None
      else
        var matched := Collect(PickReadable(base), pairs);
        if matched == [] then None else Some(matched)
  }

  // ---- print and parse

  function PrintPair(p: Pair): string { p.name + "=" + p.value }

  function PrintAll(pairs: seq<Pair>): seq<string> {
    seq(|pairs|, i requires 0 <= i < |pairs| => PrintPair(pairs[i]))
  }

  function Print(pairs: seq<Pair>): string { Join(PrintAll(pairs)) }

  predicate Legal(p: Pair) {
    && ';' !in p.name && '=' !in p.name && ';' !in p.value
    && Trimmed(p.name, IsSpace) && Trimmed(p.value, IsSpace)
  }

  predicate AllLegal(pairs: seq<Pair>) { forall i :: 0 <= i < |pairs| ==> Legal(pairs[i]) }

  lemma {:induction false} PrintedPairParses(p: Pair)
    requires Legal(p)
    ensures PairOf(PrintPair(p)) == Some(p)
  {
    PrintedPairStrips(p);
    PrintedPairCuts(p);
    PartsStrip(p);
  }

  lemma {:induction false} PrintedPairCuts(p: Pair)
    requires '=' !in p.name
    ensures Partition(PrintPair(p), '=') == Cut(p.name, true, p.value)
  {
    assert PrintPair(p) == p.name + ['='] + p.value;
    PartitionFirst(p.name, '=', p.value);
  }

  lemma {:induction false} PartsStrip(p: Pair)
    requires Legal(p)
    ensures Strip(p.name) == p.name && Strip(p.value) == p.value
  {
    TrimId(p.name, IsSpace);
    TrimId(p.value, IsSpace);
  }

  lemma {:induction false} PrintedPairStrips(p: Pair)
    requires Legal(p)
    ensures Strip(PrintPair(p)) == PrintPair(p)
  {
    PrintedPairIsTrimmed(p);
    TrimId(PrintPair(p), IsSpace);
  }

  lemma {:induction false} PrintedPairIsTrimmed(p: Pair)
    requires Legal(p)
    ensures Trimmed(PrintPair(p), IsSpace)
  {
    var text := PrintPair(p);
    assert text[0] == if p.name == "" then '=' else p.name[0];
    assert text[|text| - 1] == if p.value == "" then '=' else p.value[|p.value| - 1];
  }

  /** What one fragment says: nothing without a `=`, and otherwise what stands before its first `=` and after it,
      each trimmed. */
  lemma {:induction false} PairOfExactly(fragment: string)
    ensures PairOf(fragment).None? <==> '=' !in Strip(fragment)
    ensures forall name, value :: '=' !in name && Strip(fragment) == name + "=" + value ==>
      PairOf(fragment) == Some(Pair(Strip(name), Strip(value)))
  {
    var text := Strip(fragment);
    forall name, value | '=' !in name && text == name + "=" + value
      ensures PairOf(fragment) == Some(Pair(Strip(name), Strip(value)))
    {
      PartitionFirst(name, '=', value);
    }
    assert '=' in text ==> IndexOf(text, '=') < |text|;
  }

  lemma {:induction false} LeadingSpace(fragment: string)
    ensures PairOf(" " + fragment) == PairOf(fragment)
  {
    StripLeadingSpace(fragment);
  }

  lemma {:induction false} StripLeadingSpace(s: string)
    ensures Strip(" " + s) == Strip(s)
  {
    assert (" " + s)[1..] == s && IsSpace(' ');
    assert LTrim(" " + s, IsSpace) == LTrim(s, IsSpace);
  }

  lemma {:induction false} SplitConcat(a: string, b: string)
    ensures Split(a + [';'] + b, ';') == Split(a, ';') + Split(b, ';')
    decreases |a|
  {
    var i := IndexOf(a, ';');
    if i == |a| {
      SplitFirst(a, ';', b);
    } else {
      var head, tail := a[..i], a[i + 1..];
      assert a == head + [';'] + tail;
      assert a + [';'] + b == head + [';'] + (tail + [';'] + b);
      SplitFirst(head, ';', tail + [';'] + b);
      SplitConcat(tail, b);
    }
  }

  lemma {:induction false} PairsAfterSpace(b: string)
    ensures Pairs(" " + b) == Pairs(b)
  {
    var parts := Split(b, ';');
    var spaced := " " + parts[0];
    SplitAfterSpace(b);
    LeadingSpace(parts[0]);
    CollectSpaced(spaced, parts[0], parts[1..]);
    assert parts == [parts[0]] + parts[1..];
  }

  lemma {:induction false} CollectSpaced(spaced: string, fragment: string, rest: seq<string>)
    requires PairOf(spaced) == PairOf(fragment)
    ensures Collect(PairOf, [spaced] + rest) == Collect(PairOf, [fragment] + rest)
  {
    CollectSameHead(PairOf, fragment, spaced, rest);
  }

  lemma {:induction false} CollectSameHead<A, B>(pick: A -> Option<B>, x: A, y: A, rest: seq<A>)
    requires pick(x) == pick(y)
    ensures Collect(pick, [x] + rest) == Collect(pick, [y] + rest)
  {
    assert ([x] + rest)[1..] == rest && ([y] + rest)[1..] == rest;
  }

  lemma {:induction false} SplitAfterSpace(b: string)
    ensures Split(" " + b, ';') == [" " + Split(b, ';')[0]] + Split(b, ';')[1..]
  {
    var i := IndexOf(b, ';');
    var spaced := " " + b[..i];
    assert ';' !in spaced;
    if i < |b| {
      assert " " + b == spaced + [';'] + b[i + 1..];
      SplitFirst(spaced, ';', b[i + 1..]);
    } else {
      assert b[..i] == b && " " + b == spaced;
      SplitWhole(spaced);
    }
  }

  lemma {:induction false} SplitWhole(s: string)
    requires ';' !in s
    ensures Split(s, ';') == [s]
  {
    assert IndexOf(s, ';') == |s|;
  }

  /** The pairs of each line, one line after another. */
  function PairsOfLines(lines: seq<string>): seq<Pair> {
    if lines == [] then [] else Pairs(lines[0]) + PairsOfLines(lines[1..])
  }

  /** However many lines one header was split into, its pairs are the lines' pairs in order. */
  lemma {:induction false} JoinedPairs(lines: seq<string>)
    ensures Pairs(Join(lines)) == PairsOfLines(lines)
  {
    if lines == [] {
      EmptyHeader();
    } else if |lines| == 1 {
      assert PairsOfLines(lines[1..]) == [];
    } else {
      JoinedPairs(lines[1..]);
      JoinedTwo(lines[0], Join(lines[1..]));
    }
  }

  lemma {:induction false} JoinedTwo(a: string, b: string)
    ensures Pairs(a + ";" + (" " + b)) == Pairs(a) + Pairs(b)
  {
    SplitConcat(a, " " + b);
    CollectConcat(PairOf, Split(a, ';'), Split(" " + b, ';'));
    PairsAfterSpace(b);
  }

  /** Legal pairs survive printing and parsing, duplicates and order kept. */
  lemma {:induction false} PrintParse(pairs: seq<Pair>)
    requires AllLegal(pairs)
    ensures Pairs(Print(pairs)) == pairs
  {
    if pairs == [] {
      EmptyHeader();
    } else {
      var p, rest := pairs[0], pairs[1..];
      assert pairs == [p] + rest;
      LegalParts(p, rest);
      PrintParse(rest);
      PrintParseFirst(p, rest);
    }
  }

  lemma {:induction false} LegalParts(p: Pair, rest: seq<Pair>)
    ensures AllLegal([p] + rest) <==> Legal(p) && AllLegal(rest)
  {
    var pairs := [p] + rest;
    assert pairs[0] == p;
    forall i | 0 <= i < |rest| ensures pairs[i + 1] == rest[i] {}
  }

  lemma {:induction false} EmptyHeader()
    ensures Pairs("") == []
  {
    SplitWhole("");
    CollectOne(PairOf, "");
  }

  lemma {:induction false} PrintParseFirst(p: Pair, rest: seq<Pair>)
    requires Legal(p)
    ensures Pairs(Print([p] + rest)) == if rest == [] then [p] else [p] + Pairs(Print(rest))
  {
    OneFragment(p);
    PrintFirst(p, rest);
    if rest != [] { JoinedTwo(PrintPair(p), Print(rest)); }
  }

  lemma {:induction false} PrintFirst(p: Pair, rest: seq<Pair>)
    ensures Print([p] + rest) == if rest == [] then PrintPair(p) else PrintPair(p) + ";" + (" " + Print(rest))
  {
    var lines := PrintAll([p] + rest);
    assert lines[0] == PrintPair(p) && lines[1..] == PrintAll(rest);
  }

  lemma {:induction false} OneFragment(p: Pair)
    requires Legal(p)
    ensures Pairs(PrintPair(p)) == [p]
  {
    PrintedPairParses(p);
    assert ';' !in PrintPair(p);
    SplitWhole(PrintPair(p));
    CollectOne(PairOf, PrintPair(p));
  }

  lemma {:induction false} CollectLegal(fragments: seq<string>)
    requires forall i :: 0 <= i < |fragments| ==> ';' !in fragments[i]
    ensures AllLegal(Collect(PairOf, fragments))
  {
    if fragments != [] {
      CollectLegal(fragments[1..]);
      PairOfIsLegal(fragments[0]);
      var pair := PairOf(fragments[0]);
      if pair.Some? { LegalParts(pair.value, Collect(PairOf, fragments[1..])); }
    }
  }

  lemma {:induction false} PairOfIsLegal(fragment: string)
    requires ';' !in fragment
    ensures PairOf(fragment).Some? ==> Legal(PairOf(fragment).value)
  {
    var text := Strip(fragment);
    var cut := Partition(text, '=');
    assert ';' !in text;
    assert forall c :: c in cut.before || c in cut.after ==> c in text;
  }

  /** Whatever the header, what is parsed is legal; so printing it and parsing again changes nothing. */
  lemma {:induction false} ParsePrintParse(header: string)
    ensures AllLegal(Pairs(header))
    ensures Pairs(Print(Pairs(header))) == Pairs(header)
  {
    SplitFree(header, ';');
    CollectLegal(Split(header, ';'));
    PrintParse(Pairs(header));
  }

  // ---- extract

  lemma {:induction false} CollectedAreReadable(pairs: seq<Pair>, base: string)
    ensures forall p :: p in Collect(PickReadable(base), pairs) <==> p in pairs && Readable(base, p)
  {
    if pairs != [] {
      CollectedAreReadable(pairs[1..], base);
      assert pairs == [pairs[0]] + pairs[1..];
    }
  }

  /** What is read: the base name or one of its hundred chunk names, with a value that is not all space. */
  ghost predicate Counts(base: string, p: Pair) {
    && (p.name == base || exists i :: 0 <= i < 100 && p.name == base + "." + Decimal(i))
    && exists j :: 0 <= j < |p.value| && !IsSpace(p.value[j])
  }

  lemma {:induction false} CountsExactly(base: string, p: Pair)
    ensures Readable(base, p) <==> Counts(base, p)
  {
    NotBlank(p.value);
    assert forall i: nat :: ChunkName(base, i) == base + "." + Decimal(i);
  }

  lemma {:induction false} NotBlank(s: string)
    ensures Strip(s) != "" <==> exists j :: 0 <= j < |s| && !IsSpace(s[j])
  {
    var pre, post := Stripped(s);
    var body := Strip(s);
    if body == "" {
      assert s == pre + post;
    } else {
      assert s[|pre|] == body[0];
    }
  }

  /** A header carries a credential exactly when it is within both caps and some pair is readable; the
      credential is then its readable pairs and no other, in header order, repeats kept. */
  lemma {:induction false} ExtractsExactly(lines: seq<string>, base: string) returns (at: seq<nat>)
    ensures var pairs := Pairs(Join(lines));
            && (Extract(lines, base).Some? <==>
                  && |Join(lines)| <= 16384 && |pairs| <= 512
                  && exists k :: 0 <= k < |pairs| && Counts(base, pairs[k]))
            && (Extract(lines, base).Some? ==> CountedAt(pairs, base, Extract(lines, base).value, at))
  {
    ExtractIs(lines, base);
    at := CountedPositions(Pairs(Join(lines)), base);
  }

  lemma {:induction false} ExtractIs(lines: seq<string>, base: string)
    ensures var pairs := Pairs(Join(lines)); var matched := Collect(PickReadable(base), pairs);
            Extract(lines, base) ==
              if |Join(lines)| <= 16384 && |pairs| <= 512 && matched != [] then Some(matched) else None
  {
  }

  lemma {:induction false} CountedPositions(pairs: seq<Pair>, base: string) returns (at: seq<nat>)
    ensures CountedAt(pairs, base, Collect(PickReadable(base), pairs), at)
    ensures Collect(PickReadable(base), pairs) != [] <==> exists k :: 0 <= k < |pairs| && Counts(base, pairs[k])
  {
    var pick := PickReadable(base);
    at := CollectPositions(pick, pairs);
    forall k | 0 <= k < |pairs|
      ensures (pick(pairs[k]).Some? <==> Counts(base, pairs[k]))
      ensures pick(pairs[k]).Some? ==> pick(pairs[k]).value == pairs[k]
    {
      CountsExactly(base, pairs[k]);
    }
    PickedIsSome(pick, pairs, Collect(pick, pairs), at);
    PickedCounts(pick, pairs, base, Collect(pick, pairs), at);
  }

  lemma {:induction false} PickedCounts(
      pick: Pair -> Option<Pair>, pairs: seq<Pair>, base: string, matched: seq<Pair>, at: seq<nat>)
    requires PickedAt(pick, pairs, matched, at)
    requires forall k :: 0 <= k < |pairs| ==> (pick(pairs[k]).Some? <==> Counts(base, pairs[k]))
    requires forall k :: 0 <= k < |pairs| ==> pick(pairs[k]).Some? ==> pick(pairs[k]).value == pairs[k]
    ensures CountedAt(pairs, base, matched, at)
  {
  }

  /** `matched` is the pairs that count, at the positions `at`: all of them, in header order, repeats kept. */
  ghost predicate CountedAt(pairs: seq<Pair>, base: string, matched: seq<Pair>, at: seq<nat>) {
    && |at| == |matched|
    && (forall i :: 0 <= i < |at| ==> at[i] < |pairs| && matched[i] == pairs[at[i]])
    && (forall i, j :: 0 <= i < j < |at| ==> at[i] < at[j])
    && (forall k :: 0 <= k < |pairs| ==> (Counts(base, pairs[k]) <==> k in at))
  }

  lemma {:induction false} CollectKeepsPicked<A, B>(pick: A -> Option<B>, s: seq<A>, a: A)
    requires a in s && pick(a).Some?
    ensures Collect(pick, s) != []
  {
    if pick(s[0]).None? { CollectKeepsPicked(pick, s[1..], a); }
  }

  /** A credential `extract` hands over never reaches the "no session cookie material" refusal. */
  lemma {:induction false} ExtractedHasMaterial(lines: seq<string>, base: string)
    requires Extract(lines, base).Some?
    ensures ResolveNamedCookie(Extract(lines, base).value, base) != Err(NoMaterial)
  {
    var pairs := Pairs(Join(lines));
    var matched := Collect(PickReadable(base), pairs);
    ReadableComeOut(pairs, base);
    AcceptableHasMaterial(matched, base);
  }

  lemma {:induction false} ReadableComeOut(pairs: seq<Pair>, base: string)
    ensures var matched := Collect(PickReadable(base), pairs);
            matched != [] ==> Readable(base, matched[0])
  {
    CollectedAreReadable(pairs, base);
    var matched := Collect(PickReadable(base), pairs);
    if matched != [] { assert matched[0] in matched; }
  }

  lemma {:induction false} AcceptableHasMaterial(matched: seq<Pair>, base: string)
    requires matched != [] && Acceptable(base, matched[0].name)
    ensures ResolveNamedCookie(matched, base) != Err(NoMaterial)
  {
    var p := matched[0];
    AcceptableIsBaseXorChunk(base, p.name);
    if p.name == base {
      CollectKeepsPicked(PickWhole(base), matched, p);
    } else {
      CollectKeepsPicked(PickChunk(base), matched, p);
    }
  }
}
