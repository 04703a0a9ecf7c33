/** Which cookie names are read, and how the pairs under one base become a single value. */
module CookieChunks {
  import opened Wrappers
  import opened Lists
  import opened PyText

  const MAX_CHUNKS := 100
  const MAX_COOKIE_BYTES := 8192

  datatype Pair = Pair(name: string, value: string)

  datatype Chunk = Chunk(index: nat, value: string)

  datatype Malformed = NoMaterial | BothForms | Duplicate | NotContiguous | ReassembledTooLong

  function ChunkName(base: string, i: nat): string { base + "." + Decimal(i) }

  predicate Acceptable(base: string, name: string) {
    name == base || exists i :: 0 <= i < MAX_CHUNKS && name == ChunkName(base, i)
  }

  method AcceptableNames(base: string) returns (names: set<string>)
    ensures forall name :: name in names <==> Acceptable(base, name)
  {
    names := {base};
    for index := 0 to MAX_CHUNKS
      invariant forall name :: name in names <==>
        name == base || exists i :: 0 <= i < index && name == ChunkName(base, i)
    {
      names := names + {ChunkName(base, index)};
    }
  }

  predicate IsChunk(name: string, base: string) {
    && base + "." <= name
    && Digits(name[|base| + 1..])
    && DecimalValue(name[|base| + 1..]) < MAX_CHUNKS
  }

  function Collect<A, B>(pick: A -> Option<B>, s: seq<A>): seq<B> {
    if s == [] then []
    else match pick(s[0])
      case None => Collect(pick, s[1..])
      case Some(b) => [b] + Collect(pick, s[1..])
  }

  function PickWhole(base: string): Pair -> Option<string> {
    (p: Pair) => if p.name == base then Some(p.value) else None
  }

  function PickChunk(base: string): Pair -> Option<Chunk> {
    (p: Pair) =>
      if IsChunk(p.name, base) then Some(Chunk(DecimalValue(p.name[|base| + 1..]), p.value)) else None
  }

  function Whole(pairs: seq<Pair>, base: string): seq<string> { Collect(PickWhole(base), pairs) }

  function Chunks(pairs: seq<Pair>, base: string): seq<Chunk> { Collect(PickChunk(base), pairs) }

  /** Before the first chunk whose index is not smaller, so equal indices keep their order. */
  function Insert(c: Chunk, ordered: seq<Chunk>): seq<Chunk> {
    if ordered == [] || c.index <= ordered[0].index then [c] + ordered
    else [ordered[0]] + Insert(c, ordered[1..])
  }

  /** `sorted(chunks, key=index)`. */
  function Sorted(chunks: seq<Chunk>): seq<Chunk> {
    if chunks == [] then [] else Insert(chunks[0], Sorted(chunks[1..]))
  }

  predicate Contiguous(ordered: seq<Chunk>) {
    forall i :: 0 <= i < |ordered| ==> ordered[i].index == i
  }

  function ValuesOf(chunks: seq<Chunk>): seq<string> { seq(|chunks|, i requires 0 <= i < |chunks| => chunks[i].value) }

  function Reassembled(chunks: seq<Chunk>): Result<string, Malformed> {
    var ordered := Sorted(chunks);
    if !Contiguous(ordered) then Err(NotContiguous)
    else
      var value := Concat(ValuesOf(ordered));
      if |value| > MAX_COOKIE_BYTES then Err(ReassembledTooLong) else Ok(value)
  }

  function ValueForBase(pairs: seq<Pair>, base: string): Result<Option<string>, Malformed> {
    OneForm(Whole(pairs, base), Chunks(pairs, base))
  }

  function OneForm(whole: seq<string>, chunks: seq<Chunk>): Result<Option<string>, Malformed> {
    if whole == [] && chunks == [] then Ok(None)
    else if whole != [] && chunks != [] then Err(BothForms)
    else if |whole| > 1 then Err(Duplicate)
    else if whole != [] then Ok(Some(whole[0]))
    else match Reassembled(chunks)
      case Ok(value) => Ok(Some(value))
      case Err(e) => Err(e)
  }

  function ResolveNamedCookie(pairs: seq<Pair>, base: string): Result<Pair, Malformed> {
    match ValueForBase(pairs, base)
    case Err(e) => Err(e)
    case Ok(None) => Err(NoMaterial)
    case Ok(Some(value)) => Ok(Pair(base, value))
  }

  // ---- names

  /** A chunk name read back is the index it was written for. */
  lemma {:induction false} ChunkNameIsChunk(base: string, i: nat)
    requires i < MAX_CHUNKS
    ensures IsChunk(ChunkName(base, i), base)
    ensures DecimalValue(ChunkName(base, i)[|base| + 1..]) == i
  {
    assert ChunkName(base, i)[|base| + 1..] == Decimal(i);
    assert ChunkName(base, i)[..|base| + 1] == base + ".";
    DecimalRoundTrip(i);
  }

  /** Every name this verifier reads is the base or a chunk of it, and never both. */
  lemma {:induction false} AcceptableIsBaseXorChunk(base: string, name: string)
    requires Acceptable(base, name)
    ensures (name == base) != IsChunk(name, base)
  {
    if name != base {
      var i :| 0 <= i < MAX_CHUNKS && name == ChunkName(base, i);
      ChunkNameIsChunk(base, i);
    }
  }

  // ---- order independence

  lemma {:induction false} CollectConcat<A, B>(pick: A -> Option<B>, a: seq<A>, b: seq<A>)
    ensures Collect(pick, a + b) == Collect(pick, a) + Collect(pick, b)
  {
    if a == [] {
      assert a + b == b;
    } else {
      CollectConcat(pick, a[1..], b);
      var s := a + b;
      assert s[0] == a[0] && s[1..] == a[1..] + b;
      var head := if pick(a[0]).Some? then [pick(a[0]).value] else [];
      assert Collect(pick, s) == head + (Collect(pick, a[1..]) + Collect(pick, b));
    }
  }

  lemma {:induction false} CollectOne<A, B>(pick: A -> Option<B>, a: A)
    ensures Collect(pick, [a]) == if pick(a).Some? then [pick(a).value] else []
  {
    assert Collect(pick, [a][1..]) == [];
  }

  lemma {:induction false} CollectNext<A, B>(pick: A -> Option<B>, s: seq<A>, i: nat)
    requires i < |s|
    ensures Collect(pick, s[..i + 1]) == Collect(pick, s[..i]) + if pick(s[i]).Some? then [pick(s[i]).value] else []
  {
    assert s[..i + 1] == s[..i] + [s[i]];
    CollectConcat(pick, s[..i], [s[i]]);
    CollectOne(pick, s[i]);
  }

  /** `out` is what `pick` makes of `s` at the positions `at`: everywhere it picks, in order, repeats kept. */
  ghost predicate PickedAt<A, B>(pick: A -> Option<B>, s: seq<A>, out: seq<B>, at: seq<nat>) {
    && |at| == |out|
    && (forall i :: 0 <= i < |at| ==> at[i] < |s| && pick(s[at[i]]) == Some(out[i]))
    && (forall i, j :: 0 <= i < j < |at| ==> at[i] < at[j])
    && (forall k :: 0 <= k < |s| ==> (pick(s[k]).Some? <==> k in at))
  }

  lemma {:induction false} CollectPositions<A, B>(pick: A -> Option<B>, s: seq<A>) returns (at: seq<nat>)
    ensures PickedAt(pick, s, Collect(pick, s), at)
  {
    at := [];
    if s != [] {
      var n := |s| - 1;
      at := CollectPositions(pick, s[..n]);
      CollectNext(pick, s, n);
      assert s[..n + 1] == s;
      PickedNext(pick, s[..n], s[n], Collect(pick, s[..n]), at);
      assert s[..n] + [s[n]] == s;
      if pick(s[n]).Some? { at := at + [n]; }
    }
  }

  lemma {:induction false} PickedIsSome<A, B>(pick: A -> Option<B>, s: seq<A>, out: seq<B>, at: seq<nat>)
    requires PickedAt(pick, s, out, at)
    ensures out != [] <==> exists k :: 0 <= k < |s| && pick(s[k]).Some?
  {
    if out != [] { assert at[0] in at && pick(s[at[0]]).Some?; }
  }

  lemma {:induction false} PickedNext<A, B>(pick: A -> Option<B>, s: seq<A>, a: A, out: seq<B>, at: seq<nat>)
    requires PickedAt(pick, s, out, at)
    ensures if pick(a).Some? then PickedAt(pick, s + [a], out + [pick(a).value], at + [|s|])
            else PickedAt(pick, s + [a], out, at)
  {
    var longer := at + [|s|];
    assert longer[|at|] == |s| && |s| !in at;
    forall k | 0 <= k < |s| ensures (s + [a])[k] == s[k] && (k in at <==> k in longer) {}
  }

  /** Collecting from a permutation collects a permutation. */
  lemma {:induction false} CollectPermutes<A, B>(pick: A -> Option<B>, ps: seq<A>, qs: seq<A>)
    requires multiset(ps) == multiset(qs)
    ensures multiset(Collect(pick, ps)) == multiset(Collect(pick, qs))
  {
    if ps == [] {
      assert |multiset(qs)| == 0;
    } else {
      var p := ps[0];
      assert ps == [p] + ps[1..];
      assert p in multiset(qs);
      var k :| 0 <= k < |qs| && qs[k] == p;
      var l, r := qs[..k], qs[k + 1..];
      assert qs == l + ([p] + r);
      assert multiset(l + r) == multiset(qs) - multiset{p};
      CollectPermutes(pick, ps[1..], l + r);
      CollectConcat(pick, l, r);
      CollectConcat(pick, l, [p] + r);
      CollectConcat(pick, [p], r);
      CollectConcat(pick, [p], ps[1..]);
      assert multiset(Collect(pick, l + r)) == multiset(Collect(pick, l)) + multiset(Collect(pick, r));
      assert Collect(pick, qs) == Collect(pick, l) + (Collect(pick, [p]) + Collect(pick, r));
      assert Collect(pick, ps) == Collect(pick, [p]) + Collect(pick, ps[1..]);
    }
  }

  ghost predicate Ordered(s: seq<Chunk>) {
    forall i, j :: 0 <= i < j < |s| ==> s[i].index <= s[j].index
  }

  lemma {:induction false} InsertAdds(c: Chunk, ordered: seq<Chunk>)
    ensures multiset(Insert(c, ordered)) == multiset{c} + multiset(ordered)
  {
    if ordered != [] && c.index > ordered[0].index {
      InsertAdds(c, ordered[1..]);
      assert ordered == [ordered[0]] + ordered[1..];
    }
  }

  lemma {:induction false} InsertOrders(c: Chunk, ordered: seq<Chunk>)
    requires Ordered(ordered)
    ensures Ordered(Insert(c, ordered))
  {
    if ordered != [] && c.index > ordered[0].index {
      var rest := Insert(c, ordered[1..]);
      InsertOrders(c, ordered[1..]);
      FirstStaysLeast(c, ordered, rest);
    }
  }

  lemma {:induction false} FirstStaysLeast(c: Chunk, ordered: seq<Chunk>, rest: seq<Chunk>)
    requires Ordered(ordered) && ordered != [] && c.index > ordered[0].index
    requires rest == Insert(c, ordered[1..])
    ensures forall j :: 0 <= j < |rest| ==> ordered[0].index <= rest[j].index
  {
    InsertAdds(c, ordered[1..]);
    forall j | 0 <= j < |rest| ensures ordered[0].index <= rest[j].index {
      assert rest[j] in multiset(rest);
      assert rest[j] == c || rest[j] in ordered[1..];
    }
  }

  lemma {:induction false} SortedOrders(chunks: seq<Chunk>)
    ensures multiset(Sorted(chunks)) == multiset(chunks) && Ordered(Sorted(chunks))
  {
    if chunks != [] {
      SortedOrders(chunks[1..]);
      InsertOrders(chunks[0], Sorted(chunks[1..]));
      InsertAdds(chunks[0], Sorted(chunks[1..]));
      assert chunks == [chunks[0]] + chunks[1..];
    }
  }

  /** `pieces` cut in order. */
  function Numbered(pieces: seq<string>): seq<Chunk> {
    seq(|pieces|, i requires 0 <= i < |pieces| => Chunk(i, pieces[i]))
  }

  /** An ordered rearrangement of strictly increasing chunks is those chunks. */
  lemma {:induction false} OrderedIsUnique(s: seq<Chunk>, t: seq<Chunk>)
    requires multiset(s) == multiset(t) && Ordered(s)
    requires forall i, j :: 0 <= i < j < |t| ==> t[i].index < t[j].index
    ensures s == t
  {
    assert |s| == |multiset(s)| == |multiset(t)| == |t|;
    if s != [] {
      FirstIsUnique(s, t);
      TailMultiset(s);
      TailMultiset(t);
      OrderedIsUnique(s[1..], t[1..]);
      assert s == [s[0]] + s[1..] && t == [t[0]] + t[1..];
    }
  }

  lemma {:induction false} TailMultiset(s: seq<Chunk>)
    requires s != []
    ensures multiset(s[1..]) == multiset(s) - multiset{s[0]}
  {
    assert s == [s[0]] + s[1..];
  }

  lemma {:induction false} FirstIsUnique(s: seq<Chunk>, t: seq<Chunk>)
    requires s != [] && t != [] && multiset(s) == multiset(t) && Ordered(s)
    requires forall i, j :: 0 <= i < j < |t| ==> t[i].index < t[j].index
    ensures s[0] == t[0]
  {
    assert s[0] in multiset(t) && t[0] in multiset(s);
    var i :| 0 <= i < |t| && t[i] == s[0];
    var j :| 0 <= j < |s| && s[j] == t[0];
    assert s[0].index <= t[0].index;
  }

  /** The chunks form a contiguous run exactly when they are some pieces numbered from 0, in any order. */
  lemma {:induction false} ContiguousExactly(chunks: seq<Chunk>, pieces: seq<string>)
    ensures multiset(chunks) == multiset(Numbered(pieces)) <==> Sorted(chunks) == Numbered(pieces)
  {
    SortedOrders(chunks);
    if multiset(chunks) == multiset(Numbered(pieces)) {
      OrderedIsUnique(Sorted(chunks), Numbered(pieces));
    }
  }

  lemma {:induction false} ReassembledIsOrderFree(xs: seq<Chunk>, ys: seq<Chunk>)
    requires multiset(xs) == multiset(ys)
    ensures Reassembled(xs) == Reassembled(ys)
  {
    if Contiguous(Sorted(xs)) {
      ContiguousRunIsShared(xs, ys);
    } else if Contiguous(Sorted(ys)) {
      ContiguousRunIsShared(ys, xs);
    }
  }

  lemma {:induction false} ContiguousRunIsShared(xs: seq<Chunk>, ys: seq<Chunk>)
    requires multiset(xs) == multiset(ys) && Contiguous(Sorted(xs))
    ensures Sorted(xs) == Sorted(ys)
  {
    var pieces := ValuesOf(Sorted(xs));
    assert Sorted(xs) == Numbered(pieces);
    ContiguousExactly(xs, pieces);
    ContiguousExactly(ys, pieces);
  }

  /** The result, value or refusal, depends only on the multiset of pairs. */
  lemma {:induction false} ResolveIsOrderFree(ps: seq<Pair>, qs: seq<Pair>, base: string)
    requires multiset(ps) == multiset(qs)
    ensures ResolveNamedCookie(ps, base) == ResolveNamedCookie(qs, base)
  {
    CollectPermutes(PickWhole(base), ps, qs);
    CollectPermutes(PickChunk(base), ps, qs);
    OneFormIsOrderFree(Whole(ps, base), Whole(qs, base), Chunks(ps, base), Chunks(qs, base));
  }

  lemma {:induction false} OneFormIsOrderFree(a: seq<string>, b: seq<string>, c: seq<Chunk>, d: seq<Chunk>)
    requires multiset(a) == multiset(b) && multiset(c) == multiset(d)
    ensures OneForm(a, c) == OneForm(b, d)
  {
    assert |a| == |multiset(a)| == |multiset(b)| == |b|;
    assert |c| == |multiset(c)| == |multiset(d)| == |d|;
    if a != [] { assert a[0] in multiset(b); }
    ReassembledIsOrderFree(c, d);
  }

  // ---- reassembly

  ghost predicate IsWhole(pairs: seq<Pair>, base: string, value: string) {
    Whole(pairs, base) == [value] && Chunks(pairs, base) == []
  }

  ghost predicate IsCutInto(pairs: seq<Pair>, base: string, pieces: seq<string>) {
    Whole(pairs, base) == [] && pieces != [] && CutInto(Chunks(pairs, base), pieces)
  }

  /** Accepted exactly when the base arrived once and whole, or as pieces numbered from 0 without gap
      or repeat whose join fits the cap. Everything else is refused. */
  lemma {:induction false} ResolveAcceptsExactly(pairs: seq<Pair>, base: string, value: string)
    ensures ResolveNamedCookie(pairs, base) == Ok(Pair(base, value)) <==>
      || IsWhole(pairs, base, value)
      || (|value| <= MAX_COOKIE_BYTES
          && exists pieces: seq<string> :: IsCutInto(pairs, base, pieces) && value == Concat(pieces))
  {
    ReassembledAcceptsExactly(Chunks(pairs, base), value);
    if Whole(pairs, base) == [] {
      if Chunks(pairs, base) == [] {
        forall pieces: seq<string> | IsCutInto(pairs, base, pieces) ensures false {
          CutCounts(Chunks(pairs, base), pieces);
        }
      } else {
        forall pieces: seq<string> | CutInto(Chunks(pairs, base), pieces) ensures IsCutInto(pairs, base, pieces) {
          CutCounts(Chunks(pairs, base), pieces);
        }
      }
    }
  }

  ghost predicate CutInto(chunks: seq<Chunk>, pieces: seq<string>) {
    multiset(chunks) == multiset(Numbered(pieces))
  }

  lemma {:induction false} CutCounts(chunks: seq<Chunk>, pieces: seq<string>)
    requires CutInto(chunks, pieces)
    ensures |chunks| == |pieces|
  {
    assert |chunks| == |multiset(chunks)| == |multiset(Numbered(pieces))|;
  }

  lemma {:induction false} ReassembledAcceptsExactly(chunks: seq<Chunk>, value: string)
    ensures Reassembled(chunks) == Ok(value) <==>
      && |value| <= MAX_COOKIE_BYTES
      && exists pieces: seq<string> :: CutInto(chunks, pieces) && value == Concat(pieces)
  {
    var ordered := Sorted(chunks);
    forall pieces: seq<string> | CutInto(chunks, pieces)
      ensures ordered == Numbered(pieces) && ValuesOf(ordered) == pieces
    {
      ContiguousExactly(chunks, pieces);
      assert ValuesOf(Numbered(pieces)) == pieces;
    }
    if Contiguous(ordered) {
      var pieces := ValuesOf(ordered);
      assert ordered == Numbered(pieces);
      SortedOrders(chunks);
      assert CutInto(chunks, pieces);
    }
  }

  ghost predicate Repeated(chunks: seq<Chunk>) {
    exists i, j :: 0 <= i < j < |chunks| && chunks[i].index == chunks[j].index
  }

  /** Some chunk stands past an index no chunk carries; index 0 included. */
  ghost predicate Gapped(chunks: seq<Chunk>) {
    exists m: nat :: Missing(chunks, m) && exists c :: c in chunks && m < c.index
  }

  ghost predicate Missing(chunks: seq<Chunk>, m: nat) {
    forall c :: c in chunks ==> c.index != m
  }

  /** A chunk run is refused as such exactly when it has a repeat, a gap or no index 0. */
  lemma {:induction false} RunRefusedExactly(pairs: seq<Pair>, base: string)
    requires Whole(pairs, base) == [] && Chunks(pairs, base) != []
    ensures ResolveNamedCookie(pairs, base) == Err(NotContiguous) <==>
      Repeated(Chunks(pairs, base)) || Gapped(Chunks(pairs, base))
  {
    var chunks := Chunks(pairs, base);
    var ordered := Sorted(chunks);
    SortedOrders(chunks);
    forall c ensures c in chunks <==> c in ordered {
      assert c in chunks <==> c in multiset(chunks);
      assert c in ordered <==> c in multiset(ordered);
    }
    forall m: nat ensures Missing(chunks, m) <==> Missing(ordered, m) {}
    if Contiguous(ordered) {
      RunHasNoGap(ordered);
      if Repeated(chunks) { RepeatSurvives(chunks, ordered); }
    } else {
      BrokenRun(ordered);
      if Repeated(ordered) { RepeatSurvives(ordered, chunks); }
    }
  }

  lemma {:induction false} RunHasNoGap(ordered: seq<Chunk>)
    requires Contiguous(ordered)
    ensures !Gapped(ordered) && !Repeated(ordered)
  {
    forall m: nat, c | c in ordered && m < c.index ensures !Missing(ordered, m) {
      assert ordered[m] in ordered;
    }
  }

  lemma {:induction false} BrokenRun(ordered: seq<Chunk>)
    requires Ordered(ordered) && !Contiguous(ordered)
    ensures Repeated(ordered) || Gapped(ordered)
  {
    var i := 0;
    while ordered[i].index == i
      invariant i < |ordered| && forall j :: 0 <= j < i ==> ordered[j].index == j
      decreases |ordered| - i
    {
      i := i + 1;
    }
    if ordered[i].index < i {
      assert ordered[i - 1].index == i - 1;
    } else {
      assert ordered[i] in ordered;
      assert Missing(ordered, i);
    }
  }

  lemma {:induction false} RepeatSurvives(xs: seq<Chunk>, ys: seq<Chunk>)
    requires multiset(xs) == multiset(ys) && Repeated(xs)
    ensures Repeated(ys)
  {
    var i, j :| 0 <= i < j < |xs| && xs[i].index == xs[j].index;
    TwoAreCounted(xs, i, j);
    var k, l := TwoAreFound(ys, xs[i], xs[j]);
    assert ys[if k < l then k else l].index == ys[if k < l then l else k].index;
  }

  lemma {:induction false} TwoAreCounted(xs: seq<Chunk>, i: nat, j: nat)
    requires i < j < |xs|
    ensures multiset{xs[i], xs[j]} <= multiset(xs)
  {
    assert xs == xs[..j] + [xs[j]] + xs[j + 1..];
    assert xs[i] in multiset(xs[..j]) by { assert xs[..j][i] == xs[i]; }
  }

  lemma {:induction false} RemovedMultiset(ys: seq<Chunk>, k: nat)
    requires k < |ys|
    ensures multiset(ys[..k] + ys[k + 1..]) == multiset(ys) - multiset{ys[k]}
  {
    assert ys == ys[..k] + [ys[k]] + ys[k + 1..];
  }

  lemma {:induction false} TwoAreFound(ys: seq<Chunk>, a: Chunk, b: Chunk) returns (k: nat, l: nat)
    requires multiset{a, b} <= multiset(ys)
    ensures k < |ys| && l < |ys| && k != l && ys[k] == a && ys[l] == b
  {
    assert a in multiset(ys);
    k :| 0 <= k < |ys| && ys[k] == a;
    var rest := ys[..k] + ys[k + 1..];
    RemovedMultiset(ys, k);
    assert b in multiset(rest);
    var m :| 0 <= m < |rest| && rest[m] == b;
    l := if m < k then m else m + 1;
  }

  /** The pairs a server sends for a value cut into `pieces`. */
  function Delivered(base: string, pieces: seq<string>): seq<Pair> {
    seq(|pieces|, i requires 0 <= i < |pieces| => Pair(ChunkName(base, i), pieces[i]))
  }

  lemma {:induction false} DeliveredChunks(base: string, pieces: seq<string>)
    requires |pieces| <= MAX_CHUNKS
    ensures Chunks(Delivered(base, pieces), base) == Numbered(pieces)
    ensures Whole(Delivered(base, pieces), base) == []
  {
    if pieces != [] {
      var n := |pieces| - 1;
      DeliveredChunks(base, pieces[..n]);
      var last := Pair(ChunkName(base, n), pieces[n]);
      assert Delivered(base, pieces) == Delivered(base, pieces[..n]) + [last];
      assert Numbered(pieces) == Numbered(pieces[..n]) + [Chunk(n, pieces[n])];
      CollectConcat(PickChunk(base), Delivered(base, pieces[..n]), [last]);
      CollectConcat(PickWhole(base), Delivered(base, pieces[..n]), [last]);
      ChunkNameIsChunk(base, n);
    }
  }

  /** Any value cut into 1 to 100 pieces and delivered in any order comes back whole, within the cap. */
  lemma {:induction false} ReassemblyRoundTrip(pairs: seq<Pair>, base: string, pieces: seq<string>)
    requires 1 <= |pieces| <= MAX_CHUNKS
    requires multiset(pairs) == multiset(Delivered(base, pieces))
    ensures ResolveNamedCookie(pairs, base) ==
      if |Concat(pieces)| <= MAX_COOKIE_BYTES then Ok(Pair(base, Concat(pieces))) else Err(ReassembledTooLong)
  {
    ResolveIsOrderFree(pairs, Delivered(base, pieces), base);
    DeliveredChunks(base, pieces);
    ContiguousExactly(Numbered(pieces), pieces);
    assert ValuesOf(Numbered(pieces)) == pieces;
  }
}
