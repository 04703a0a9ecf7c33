/** A Python `dict`: iteration follows first insertion, and assigning to a resident key keeps its place. */
module OrderedDict {
  import opened Wrappers

  datatype Dict<K(==, !new), V> = Dict(keys: seq<K>, items: map<K, V>) {

    ghost predicate Valid() {
      && Distinct(keys)
      && (forall k :: k in keys <==> k in items)
    }

    predicate Has(k: K) { k in items }

    function Get(k: K): Option<V> { if k in items then Some(items[k]) else None }

    function Len(): nat { |keys| }

    /** `self[k] = v`. */
    function Put(k: K, v: V): (d: Dict<K, V>)
      ensures Valid() ==> d.Valid()
    {
      Dict(if k in items then keys else keys + [k], items[k := v])
    }

    /** `del self[k]`, for a resident key. */
    function Del(k: K): (d: Dict<K, V>)
      ensures Valid() ==> d.Valid() && !d.Has(k)
    {
      Dict(Without(keys, k), items - {k})
    }

    /** `self.pop(next(iter(self)))`. */
    function PopFirst(): (d: Dict<K, V>)
      requires keys != []
      ensures Valid() ==> d.Valid() && d.Len() == Len() - 1 && !d.Has(keys[0])
    {
      Dict(keys[1..], items - {keys[0]})
    }
  }

  function Empty<K(==, !new), V>(): (d: Dict<K, V>)
    ensures d.Valid()
  {
    Dict([], map[])
  }

  function Without<K(==, !new)>(keys: seq<K>, k: K): (r: seq<K>)
    ensures |r| <= |keys|
    ensures forall x :: x in r <==> x in keys && x != k
    ensures Distinct(keys) ==> Distinct(r)
  {
    if keys == [] then []
    else
      assert keys == [keys[0]] + keys[1..];
      var rest := Without(keys[1..], k);
      assert forall i :: 0 <= i < |rest| ==> rest[i] in keys[1..];
      if keys[0] == k then rest else [keys[0]] + rest
  }

  ghost predicate Distinct<K(!new)>(keys: seq<K>) {
    forall i, j :: 0 <= i < j < |keys| ==> keys[i] != keys[j]
  }

  /** Iteration meets the entries oldest stamp first. */
  ghost predicate InOrder<K(!new)>(d: Dict<K, real>)
    requires d.Valid()
  {
    forall i, j :: 0 <= i < j < |d.keys| ==> d.items[d.keys[i]] <= d.items[d.keys[j]]
  }

  /** Nothing stamped before `now` stands behind `k`. */
  ghost predicate LastOfItsTime<K(!new)>(d: Dict<K, real>, k: K, now: real)
    requires d.Valid()
  {
    forall i, j :: 0 <= i < j < |d.keys| && d.keys[i] == k ==> d.items[d.keys[j]] == now
  }

  /** Stamping `k` with the time keeps the order exactly when no older entry stands behind `k`. */
  lemma {:induction false} PutKeepsOrderExactly<K(!new)>(d: Dict<K, real>, k: K, now: real)
    requires d.Valid() && InOrder(d) && forall x :: x in d.items ==> d.items[x] <= now
    ensures InOrder(d.Put(k, now)) <==> LastOfItsTime(d, k, now)
  {
    if LastOfItsTime(d, k, now) { PutLastKeepsOrder(d, k, now); }
    if InOrder(d.Put(k, now)) { OrderedPutIsLast(d, k, now); }
  }

  lemma {:induction false} PutLastKeepsOrder<K(!new)>(d: Dict<K, real>, k: K, now: real)
    requires d.Valid() && InOrder(d) && forall x :: x in d.items ==> d.items[x] <= now
    requires LastOfItsTime(d, k, now)
    ensures InOrder(d.Put(k, now))
  {
    var put := d.Put(k, now);
    forall i, j | 0 <= i < j < |put.keys| ensures put.items[put.keys[i]] <= put.items[put.keys[j]] {
      assert i < |d.keys| && put.keys[i] == d.keys[i] && d.keys[i] in d.items;
      if j < |d.keys| { assert put.keys[j] == d.keys[j] && d.keys[j] in d.items; }
    }
  }

  lemma {:induction false} OrderedPutIsLast<K(!new)>(d: Dict<K, real>, k: K, now: real)
    requires d.Valid() && (forall x :: x in d.items ==> d.items[x] <= now) && InOrder(d.Put(k, now))
    ensures LastOfItsTime(d, k, now)
  {
    var put := d.Put(k, now);
    forall i, j | 0 <= i < j < |d.keys| && d.keys[i] == k ensures d.items[d.keys[j]] == now {
      assert d.keys[i] in d.items && put.keys == d.keys;
      assert put.items[put.keys[i]] <= put.items[put.keys[j]];
      assert d.keys[j] in d.items && d.keys[j] != k;
    }
  }

  lemma {:induction false} PopKeepsOrder<K(!new)>(d: Dict<K, real>)
    requires d.Valid() && d.keys != [] && InOrder(d)
    ensures InOrder(d.PopFirst())
  {
    var popped := d.PopFirst();
    assert forall i :: 0 <= i < |popped.keys| ==> popped.keys[i] == d.keys[i + 1];
    assert forall i :: 0 <= i < |popped.keys| ==> popped.keys[i] in popped.items;
  }

  lemma {:induction false} WithoutKeepsOrder<K(!new)>(keys: seq<K>, items: map<K, real>, k: K)
    requires forall i :: 0 <= i < |keys| ==> keys[i] in items
    requires forall i, j :: 0 <= i < j < |keys| ==> items[keys[i]] <= items[keys[j]]
    ensures forall i :: 0 <= i < |Without(keys, k)| ==> Without(keys, k)[i] in items
    ensures forall i, j :: 0 <= i < j < |Without(keys, k)| ==> items[Without(keys, k)[i]] <= items[Without(keys, k)[j]]
  {
    if keys != [] {
      var rest, kept := keys[1..], Without(keys[1..], k);
      WithoutKeepsOrder(rest, items, k);
      forall j | 0 <= j < |kept| ensures items[keys[0]] <= items[kept[j]] {
        assert kept[j] in kept && kept[j] in rest;
        var i :| 0 <= i < |rest| && rest[i] == kept[j];
        assert keys[i + 1] == kept[j];
      }
    }
  }

  /** Deleting an entry leaves the others in order. */
  lemma {:induction false} DelKeepsOrder<K(!new)>(d: Dict<K, real>, k: K)
    requires d.Valid() && InOrder(d)
    ensures InOrder(d.Del(k))
  {
    var left := d.Del(k);
    forall i | 0 <= i < |d.keys| ensures d.keys[i] in d.items { assert d.keys[i] in d.keys; }
    WithoutKeepsOrder(d.keys, d.items, k);
    forall i | 0 <= i < |left.keys|
      ensures left.keys[i] in d.items && left.items[left.keys[i]] == d.items[left.keys[i]] {
      assert left.keys[i] in left.keys;
    }
  }
}
