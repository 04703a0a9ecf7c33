/** Shared vocabulary: optional values, results, and the few list operations Python supplies. */
module Wrappers {
  datatype Option<+T> = None | Some(value: T)

  datatype Result<+T, +E> = Ok(value: T) | Err(error: E)
}

/** `str.partition`, `str.rpartition`, `str.split`, `str.strip` and `"".join`, on any element type. */
module Lists {

  function IndexOf<T(==)>(s: seq<T>, x: T): (i: nat)
    ensures i <= |s|
    ensures i < |s| ==> s[i] == x
    ensures forall j :: 0 <= j < i ==> s[j] != x
  {
    if s == [] || s[0] == x then 0 else 1 + IndexOf(s[1..], x)
  }

  function LastIndexOf<T(==)>(s: seq<T>, x: T): (i: int)
    ensures -1 <= i < |s|
    ensures i >= 0 ==> s[i] == x
    ensures forall j :: i < j < |s| ==> s[j] != x
  {
    if s == [] then -1
    else if s[|s| - 1] == x then |s| - 1
    else LastIndexOf(s[..|s| - 1], x)
  }

  datatype Cut<T> = Cut(before: seq<T>, found: bool, after: seq<T>)

  /** Around the first separator; everything is `before` when there is none. */
  function Partition<T(==)>(s: seq<T>, sep: T): Cut<T> {
    var i := IndexOf(s, sep);
    if i < |s| then Cut(s[..i], true, s[i + 1..]) else Cut(s, false, [])
  }

  /** Around the last separator; everything is `after` when there is none. */
  function RPartition<T(==)>(s: seq<T>, sep: T): Cut<T> {
    var i := LastIndexOf(s, sep);
    if i >= 0 then Cut(s[..i], true, s[i + 1..]) else Cut([], false, s)
  }

  function Split<T(==)>(s: seq<T>, sep: T): (parts: seq<seq<T>>)
    ensures |parts| >= 1
    decreases |s|
  {
    var i := IndexOf(s, sep);
    if i < |s| then [s[..i]] + Split(s[i + 1..], sep) else [s]
  }

  function Concat<T>(parts: seq<seq<T>>): seq<T> {
    if parts == [] then [] else parts[0] + Concat(parts[1..])
  }

  function LTrim<T>(s: seq<T>, blank: T -> bool): (r: seq<T>)
    ensures |r| <= |s| && r == s[|s| - |r|..]
    ensures r != [] ==> !blank(r[0])
  {
    if s != [] && blank(s[0]) then LTrim(s[1..], blank) else s
  }

  function RTrim<T>(s: seq<T>, blank: T -> bool): (r: seq<T>)
    ensures |r| <= |s| && r == s[..|r|]
    ensures r != [] ==> !blank(r[|r| - 1])
  {
    if s != [] && blank(s[|s| - 1]) then RTrim(s[..|s| - 1], blank) else s
  }

  function Trim<T>(s: seq<T>, blank: T -> bool): (r: seq<T>)
    ensures Trimmed(r, blank)
    ensures forall x :: x in r ==> x in s
  {
    RTrim(LTrim(s, blank), blank)
  }

  predicate Trimmed<T>(s: seq<T>, blank: T -> bool) {
    s != [] ==> !blank(s[0]) && !blank(s[|s| - 1])
  }

  lemma {:induction false} TrimId<T>(s: seq<T>, blank: T -> bool)
    requires Trimmed(s, blank)
    ensures Trim(s, blank) == s
  {
  }

  lemma {:induction false} IndexOfFirst<T>(a: seq<T>, x: T, b: seq<T>)
    requires x !in a
    ensures IndexOf(a + [x] + b, x) == |a|
  {
    var s := a + [x] + b;
    assert s[|a|] == x && forall j :: 0 <= j < |a| ==> s[j] == a[j];
  }

  lemma {:induction false} PartitionFirst<T>(a: seq<T>, x: T, b: seq<T>)
    requires x !in a
    ensures Partition(a + [x] + b, x) == Cut(a, true, b)
  {
    IndexOfFirst(a, x, b);
    assert (a + [x] + b)[..|a|] == a;
    assert (a + [x] + b)[|a| + 1..] == b;
  }

  lemma {:induction false} RPartitionLast<T>(a: seq<T>, x: T, b: seq<T>)
    requires x !in b
    ensures RPartition(a + [x] + b, x) == Cut(a, true, b)
  {
    var s := a + [x] + b;
    assert s[|a|] == x && forall j :: |a| < j < |s| ==> s[j] == b[j - |a| - 1];
    assert s[..|a|] == a && s[|a| + 1..] == b;
  }

  lemma {:induction false} SplitFirst<T>(a: seq<T>, x: T, b: seq<T>)
    requires x !in a
    ensures Split(a + [x] + b, x) == [a] + Split(b, x)
  {
    IndexOfFirst(a, x, b);
    assert (a + [x] + b)[..|a|] == a;
    assert (a + [x] + b)[|a| + 1..] == b;
  }

  lemma {:induction false} SplitFree<T>(s: seq<T>, sep: T)
    ensures forall k :: 0 <= k < |Split(s, sep)| ==> sep !in Split(s, sep)[k]
    decreases |s|
  {
    var i := IndexOf(s, sep);
    if i < |s| { SplitFree(s[i + 1..], sep); }
  }
}
