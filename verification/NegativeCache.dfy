/** The bounded, expiring set of cookie values upstream answered `200` with `null` about. */
module NegativeCache {
  import opened Wrappers
  import opened OrderedDict
  import opened Throttle
  import Utf8

  /** The key is the SHA-256 of the whole cookie value. */
  type Key = seq<Utf8.Byte>
  type Entries = Dict<Key, Time>

  datatype Limits = Limits(ttl: Time, max: nat)

  datatype Looked = Looked(entries: Entries, held: bool)

  /** A live verdict is reported and kept; an expired one is dropped on the way past. */
  function Holds(limits: Limits, entries: Entries, key: Key, now: Time): Looked {
    if limits.ttl <= 0.0 then Looked(entries, false)
    else match entries.Get(key)
      case None => Looked(entries, false)
      case Some(at) =>
        if now - at >= limits.ttl then Looked(entries.Del(key), false) else Looked(entries, true)
  }

  function Evicted(entries: Entries, max: nat): (e: Entries)
    requires max >= 1
    ensures e.Len() < max && (entries.Valid() ==> e.Valid())
    decreases entries.Len()
  {
    if entries.Len() >= max then Evicted(entries.PopFirst(), max) else entries
  }

  /** A resident key is restamped where it stands; a new one goes last, evicting from the front. */
  function Remember(limits: Limits, entries: Entries, key: Key, now: Time): (e: Entries)
    requires limits.max >= 1
    ensures entries.Valid() ==> e.Valid()
  {
    if limits.ttl <= 0.0 then entries
    else (if entries.Has(key) then entries else Evicted(entries, limits.max)).Put(key, now)
  }

  class NegativeCache {
    const limits: Limits
    var entries: Entries

    ghost predicate Valid()
      reads this
    {
      limits.max >= 1 && entries.Valid() && entries.Len() <= limits.max
    }

    constructor (limits: Limits)
      requires limits.max >= 1
      ensures Valid() && this.limits == limits && entries == Empty()
    {
      this.limits := limits;
      entries := Empty();
    }

    method HoldsAt(key: Key, now: Time) returns (held: bool)
      requires Valid()
      modifies this
      ensures Valid() && Looked(entries, held) == Holds(limits, old(entries), key, now)
    {
      if limits.ttl <= 0.0 { return false; }
      var remembered := entries.Get(key);
      if remembered.None? { return false; }
      if now - remembered.value >= limits.ttl {
        entries := entries.Del(key);
        return false;
      }
      return true;
    }

    method RememberAt(key: Key, now: Time)
      requires Valid()
      modifies this
      ensures Valid() && entries == Remember(limits, old(entries), key, now)
    {
      if limits.ttl <= 0.0 { return; }
      while !entries.Has(key) && entries.Len() >= limits.max
        invariant limits.max >= 1 && entries.Valid()
        invariant old(entries).Has(key) ==> entries == old(entries)
        invariant !old(entries).Has(key) ==>
          !entries.Has(key) && Evicted(entries, limits.max) == Evicted(old(entries), limits.max)
        invariant old(entries.Len()) <= limits.max ==> entries.Len() <= limits.max
        decreases entries.Len()
      {
        entries := entries.PopFirst();
      }
      entries := entries.Put(key, now);
    }
  }

  // ---- runs

  datatype Op = Look(key: Key, at: Time) | Learn(key: Key, at: Time)

  function Apply(limits: Limits, entries: Entries, op: Op): Entries
    requires limits.max >= 1
  {
    match op
    case Look(key, at) => Holds(limits, entries, key, at).entries
    case Learn(key, at) => Remember(limits, entries, key, at)
  }

  function Run(limits: Limits, ops: seq<Op>): Entries
    requires limits.max >= 1
  {
    if ops == [] then Empty()
    else Apply(limits, Run(limits, ops[..|ops| - 1]), ops[|ops| - 1])
  }

  /** When `key` was last remembered. */
  function LastLearned(ops: seq<Op>, key: Key): Option<Time> {
    if ops == [] then None
    else
      var op := ops[|ops| - 1];
      if op.Learn? && op.key == key then Some(op.at) else LastLearned(ops[..|ops| - 1], key)
  }

  /** How many keys not already held were inserted since `key` last entered. */
  function FreshSince(limits: Limits, ops: seq<Op>, key: Key): nat
    requires limits.max >= 1
  {
    if ops == [] then 0
    else
      var before, op := ops[..|ops| - 1], ops[|ops| - 1];
      var held := Run(limits, before);
      if op.Look? || held.Has(op.key) then FreshSince(limits, before, key)
      else if op.key == key then 0
      else FreshSince(limits, before, key) + 1
  }

  lemma {:induction false} EvictedIsBounded(limits: Limits, entries: Entries, key: Key, now: Time)
    requires limits.max >= 1 && entries.Valid() && entries.Len() <= limits.max
    ensures Remember(limits, entries, key, now).Len() <= limits.max
    ensures Holds(limits, entries, key, now).entries.Valid()
    ensures Holds(limits, entries, key, now).entries.Len() <= limits.max
  {
  }

  /** Over every run the size never exceeds the bound. */
  lemma {:induction false} Bounded(limits: Limits, ops: seq<Op>)
    requires limits.max >= 1
    ensures Run(limits, ops).Valid() && Run(limits, ops).Len() <= limits.max
  {
    if ops != [] {
      var before, op := ops[..|ops| - 1], ops[|ops| - 1];
      Bounded(limits, before);
      EvictedIsBounded(limits, Run(limits, before), op.key, op.at);
    }
  }

  // ---- soundness and retention

  /** Every held key carries the time it was last remembered at. */
  lemma {:induction false} StampedWhenLearned(limits: Limits, ops: seq<Op>, key: Key)
    requires limits.max >= 1
    ensures Run(limits, ops).Has(key) ==> limits.ttl > 0.0
    ensures Run(limits, ops).Has(key) ==> LastLearned(ops, key) == Some(Run(limits, ops).items[key])
  {
    if ops != [] {
      var before := ops[..|ops| - 1];
      StampedWhenLearned(limits, before, key);
      Bounded(limits, before);
      if Run(limits, ops).Has(key) {
        ApplyKeepsStamps(limits, Run(limits, before), ops[|ops| - 1], key);
      }
    }
  }

  /** No step changes a surviving key's stamp but the one that remembers it. */
  lemma {:induction false} ApplyKeepsStamps(limits: Limits, entries: Entries, op: Op, key: Key)
    requires limits.max >= 1 && entries.Valid() && Apply(limits, entries, op).Has(key)
    ensures var e := Apply(limits, entries, op);
            if op.Learn? && op.key == key && limits.ttl > 0.0 then e.items[key] == op.at
            else entries.Has(key) && e.items[key] == entries.items[key]
  {
    EvictedKeeps(entries, limits.max, key);
  }

  lemma {:induction false} EvictedKeeps(entries: Entries, max: nat, key: Key)
    requires max >= 1 && entries.Valid()
    ensures Evicted(entries, max).Has(key) ==>
      entries.Has(key) && Evicted(entries, max).items[key] == entries.items[key]
    decreases entries.Len()
  {
    if entries.Len() >= max { EvictedKeeps(entries.PopFirst(), max, key); }
  }

  /** `holds` is true only for a value remembered less than `ttl` ago, whatever the run before. */
  lemma {:induction false} HoldsIsSound(limits: Limits, ops: seq<Op>, key: Key, now: Time)
    requires limits.max >= 1 && Holds(limits, Run(limits, ops), key, now).held
    ensures LastLearned(ops, key).Some? && now - LastLearned(ops, key).value < limits.ttl
  {
    StampedWhenLearned(limits, ops, key);
  }

  /** How many keys stand after `key`, which is how long it is safe from eviction. */
  function After(keys: seq<Key>, key: Key): nat {
    if keys == [] || keys[0] == key then (if keys == [] then 0 else |keys| - 1) else After(keys[1..], key)
  }

  lemma {:induction false} AfterAppend(keys: seq<Key>, key: Key, other: Key)
    requires key in keys
    ensures After(keys + [other], key) == After(keys, key) + 1
  {
    if keys[0] != key {
      assert (keys + [other])[1..] == keys[1..] + [other];
      AfterAppend(keys[1..], key, other);
    }
  }

  lemma {:induction false} AfterWithout(keys: seq<Key>, key: Key, other: Key)
    requires key != other
    ensures After(Without(keys, other), key) <= After(keys, key)
  {
    if keys != [] && keys[0] != key { AfterWithout(keys[1..], key, other); }
  }

  lemma {:induction false} AfterLast(keys: seq<Key>, key: Key)
    requires key !in keys
    ensures After(keys + [key], key) == 0
  {
    if keys != [] {
      assert (keys + [key])[1..] == keys[1..] + [key];
      AfterLast(keys[1..], key);
    }
  }

  /** Inserting a new key pushes every survivor at most one place further from the end. */
  lemma {:induction false} AfterInsertion(limits: Limits, entries: Entries, key: Key, other: Key, now: Time)
    requires limits.max >= 1 && limits.ttl > 0.0 && entries.Valid() && entries.Len() <= limits.max
    requires entries.Has(key) && !entries.Has(other)
    ensures var e := Remember(limits, entries, other, now);
            && (After(entries.keys, key) + 1 < limits.max ==> e.Has(key))
            && (e.Has(key) ==> After(e.keys, key) == After(entries.keys, key) + 1)
  {
    RememberedKeys(limits, entries, other, now);
    assert key in entries.keys && other !in entries.keys;
    AfterPushed(entries.keys, key, other, entries.Len() >= limits.max);
    var e := Remember(limits, entries, other, now);
    assert e.Has(key) <==> key in e.keys;
  }

  lemma {:induction false} RememberedKeys(limits: Limits, entries: Entries, other: Key, now: Time)
    requires limits.max >= 1 && limits.ttl > 0.0 && entries.Valid() && entries.Len() <= limits.max
    requires !entries.Has(other)
    ensures Remember(limits, entries, other, now).Valid()
    ensures Remember(limits, entries, other, now).keys ==
      (if entries.Len() >= limits.max then entries.keys[1..] else entries.keys) + [other]
  {
    if entries.Len() >= limits.max { assert Evicted(entries, limits.max) == entries.PopFirst(); }
  }

  lemma {:induction false} AfterPushed(keys: seq<Key>, key: Key, other: Key, full: bool)
    requires Distinct(keys) && key in keys && key != other
    ensures var left := if full then keys[1..] else keys;
            && (key in left + [other] <==> !(full && key == keys[0]))
            && (key in left + [other] ==> After(left + [other], key) == After(keys, key) + 1)
            && (key == keys[0] ==> After(keys, key) == |keys| - 1)
  {
    assert keys == [keys[0]] + keys[1..];
    var left := if full then keys[1..] else keys;
    if key in left { AfterAppend(left, key, other); }
    assert full && key == keys[0] ==> key !in keys[1..];
  }

  /** A held key has at most as many keys behind it as were freshly inserted since it entered. */
  lemma {:induction false} Position(limits: Limits, ops: seq<Op>, key: Key)
    requires limits.max >= 1 && limits.ttl > 0.0 && Run(limits, ops).Has(key)
    ensures After(Run(limits, ops).keys, key) <= FreshSince(limits, ops, key)
  {
    var before, op := ops[..|ops| - 1], ops[|ops| - 1];
    var held := Run(limits, before);
    Bounded(limits, before);
    EvictedKeeps(held, limits.max, key);
    if !held.Has(key) {
      assert op == Learn(key, op.at);
      AfterLast(Evicted(held, limits.max).keys, key);
    } else {
      Position(limits, before, key);
      if op.Learn? && !held.Has(op.key) {
        AfterInsertion(limits, held, key, op.key, op.at);
      } else if op.Look? && op.key != key {
        AfterWithout(held.keys, key, op.key);
      }
    }
  }

  /** A remembered value keeps answering until `ttl` after it was last remembered, unless `max` values
      not already held were inserted since it entered. */
  lemma {:induction false} Retained(limits: Limits, ops: seq<Op>, key: Key, now: Time)
    requires limits.max >= 1 && limits.ttl > 0.0
    requires LastLearned(ops, key).Some? && now - LastLearned(ops, key).value < limits.ttl
    requires forall i :: 0 <= i < |ops| ==> ops[i].at <= now
    requires FreshSince(limits, ops, key) < limits.max
    ensures Holds(limits, Run(limits, ops), key, now).held
  {
    var before, op := ops[..|ops| - 1], ops[|ops| - 1];
    StampedWhenLearned(limits, ops, key);
    if !(op.Learn? && op.key == key) {
      Retained(limits, before, key, now);
      StampedWhenLearned(limits, before, key);
      if op.Learn? && !Run(limits, before).Has(op.key) {
        Bounded(limits, before);
        Position(limits, before, key);
        AfterInsertion(limits, Run(limits, before), key, op.key, op.at);
      }
    }
  }

  /** Remembering a held key again does not move it back, so eviction is by first insertion and not by
      age: in every full cache, the first key is evicted next although it was the last one restamped. */
  lemma {:induction false} EvictionIgnoresRestamping(limits: Limits, entries: Entries, other: Key, t: Time, u: Time)
    requires limits.ttl > 0.0 && limits.max >= 1
    requires entries.Valid() && entries.Len() == limits.max && !entries.Has(other)
    ensures var e := Remember(limits, Remember(limits, entries, entries.keys[0], t), other, u);
            && !e.Has(entries.keys[0])
            && forall k :: k in entries.keys[1..] ==> e.Has(k) && e.items[k] == entries.items[k]
  {
    var first := entries.keys[0];
    assert first in entries.keys && first != other;
    var restamped := Remember(limits, entries, first, t);
    assert restamped == Dict(entries.keys, entries.items[first := t]);
    assert Evicted(restamped, limits.max) == restamped.PopFirst();
    forall k | k in entries.keys[1..] ensures k != first && k in entries.items {
      var i :| 0 <= i < |entries.keys[1..]| && entries.keys[1..][i] == k;
      assert entries.keys[i + 1] == k && k in entries.keys;
    }
  }

  /** The entries stay oldest first through a `remember` exactly when no older entry stands behind the value
      remembered; a value not held has none behind it. */
  lemma {:induction false} RememberKeepsOrderExactly(limits: Limits, entries: Entries, key: Key, now: Time)
    requires limits.max >= 1 && limits.ttl > 0.0 && entries.Valid() && InOrder(entries)
    requires forall k :: k in entries.items ==> entries.items[k] <= now
    ensures InOrder(Remember(limits, entries, key, now)) <==> LastOfItsTime(entries, key, now)
  {
    if entries.Has(key) {
      PutKeepsOrderExactly(entries, key, now);
    } else {
      var evicted := Evicted(entries, limits.max);
      EvictedInOrder(entries, limits.max);
      forall k | k in evicted.items ensures k in entries.items && evicted.items[k] <= now {
        EvictedKeeps(entries, limits.max, k);
      }
      PutKeepsOrderExactly(evicted, key, now);
      assert key !in evicted.keys && key !in entries.keys;
      assert LastOfItsTime(evicted, key, now) && LastOfItsTime(entries, key, now);
    }
  }

  lemma {:induction false} EvictedInOrder(entries: Entries, max: nat)
    requires max >= 1 && entries.Valid() && InOrder(entries)
    ensures InOrder(Evicted(entries, max))
    decreases entries.Len()
  {
    if entries.Len() >= max {
      PopKeepsOrder(entries);
      EvictedInOrder(entries.PopFirst(), max);
    }
  }

  // ---- order over runs

  ghost predicate OrderedAfter(limits: Limits, ops: seq<Op>)
    requires limits.max >= 1
  {
    Run(limits, ops).Valid() && InOrder(Run(limits, ops))
  }

  ghost predicate AlwaysOrdered(limits: Limits, ops: seq<Op>)
    requires limits.max >= 1
  {
    forall n :: 0 <= n <= |ops| ==> OrderedAfter(limits, ops[..n])
  }

  /** Operation `n` remembers no value that has an older entry behind it. */
  ghost predicate Respects(limits: Limits, ops: seq<Op>, n: nat)
    requires limits.max >= 1 && n < |ops|
  {
    && Run(limits, ops[..n]).Valid()
    && (ops[n].Learn? ==> LastOfItsTime(Run(limits, ops[..n]), ops[n].key, ops[n].at))
  }

  ghost predicate AlwaysRespects(limits: Limits, ops: seq<Op>)
    requires limits.max >= 1
  {
    forall n :: 0 <= n < |ops| ==> Respects(limits, ops, n)
  }

  ghost predicate Rising(ops: seq<Op>) { forall m, n :: 0 <= m <= n < |ops| ==> ops[m].at <= ops[n].at }

  /** A run keeps its entries oldest first throughout - so that eviction always takes the one closest to
      expiring - exactly when it never remembers again a value that has an older entry behind it. */
  lemma {:induction false} RunsKeepOrderExactly(limits: Limits, ops: seq<Op>)
    requires limits.max >= 1 && limits.ttl > 0.0 && Rising(ops)
    ensures AlwaysOrdered(limits, ops) <==> AlwaysRespects(limits, ops)
  {
    if ops == [] {
      assert forall n :: 0 <= n <= |ops| ==> ops[..n] == ops;
    } else {
      var before, last := ops[..|ops| - 1], |ops| - 1;
      RunsKeepOrderExactly(limits, before);
      OrderedSnoc(limits, ops);
      RespectsSnoc(limits, ops);
      if OrderedAfter(limits, before) { StepKeepsOrderExactly(limits, ops); }
      assert before[..last] == before;
      assert AlwaysOrdered(limits, before) ==> OrderedAfter(limits, before[..last]);
    }
  }

  lemma {:induction false} OrderedSnoc(limits: Limits, ops: seq<Op>)
    requires limits.max >= 1 && ops != []
    ensures AlwaysOrdered(limits, ops) <==> AlwaysOrdered(limits, ops[..|ops| - 1]) && OrderedAfter(limits, ops)
  {
    var before := ops[..|ops| - 1];
    assert ops[..|ops|] == ops;
    assert forall n :: 0 <= n <= |before| ==> before[..n] == ops[..n];
  }

  lemma {:induction false} RespectsSnoc(limits: Limits, ops: seq<Op>)
    requires limits.max >= 1 && ops != []
    ensures AlwaysRespects(limits, ops) <==>
      AlwaysRespects(limits, ops[..|ops| - 1]) && Respects(limits, ops, |ops| - 1)
  {
    var before := ops[..|ops| - 1];
    forall n | 0 <= n < |before| ensures Respects(limits, before, n) <==> Respects(limits, ops, n) {
      assert before[..n] == ops[..n] && before[n] == ops[n];
    }
  }

  lemma {:induction false} StepKeepsOrderExactly(limits: Limits, ops: seq<Op>)
    requires limits.max >= 1 && limits.ttl > 0.0 && Rising(ops) && ops != []
    requires OrderedAfter(limits, ops[..|ops| - 1])
    ensures OrderedAfter(limits, ops) <==> Respects(limits, ops, |ops| - 1)
  {
    var before, op := ops[..|ops| - 1], ops[|ops| - 1];
    var entries := Run(limits, before);
    Bounded(limits, ops);
    match op {
      case Look(key, at) => DelKeepsOrder(entries, key);
      case Learn(key, at) =>
        assert forall i :: 0 <= i < |before| ==> before[i] == ops[i];
        StampsReached(limits, before, at);
        RememberKeepsOrderExactly(limits, entries, key, at);
    }
  }

  lemma {:induction false} StampsReached(limits: Limits, ops: seq<Op>, now: Time)
    requires limits.max >= 1 && forall i :: 0 <= i < |ops| ==> ops[i].at <= now
    ensures forall k :: k in Run(limits, ops).items ==> Run(limits, ops).items[k] <= now
  {
    forall k | k in Run(limits, ops).items ensures Run(limits, ops).items[k] <= now {
      StampedWhenLearned(limits, ops, k);
      LearnedReached(ops, k, now);
    }
  }

  lemma {:induction false} LearnedReached(ops: seq<Op>, key: Key, now: Time)
    requires forall i :: 0 <= i < |ops| ==> ops[i].at <= now
    ensures LastLearned(ops, key).Some? ==> LastLearned(ops, key).value <= now
  {
    if ops != [] { LearnedReached(ops[..|ops| - 1], key, now); }
  }

  /** From a full cache in order, the one entry evicted is the closest to expiring. */
  lemma {:induction false} EvictsClosestToExpiring(limits: Limits, entries: Entries, key: Key, now: Time)
    requires limits.ttl > 0.0 && limits.max >= 1
    requires entries.Valid() && InOrder(entries) && entries.Len() == limits.max && !entries.Has(key)
    ensures var e, gone := Remember(limits, entries, key, now), entries.keys[0];
            forall k :: k in entries.items ==>
              (e.Has(k) <==> k != gone) && entries.items[gone] <= entries.items[k]
  {
    var gone := entries.keys[0];
    assert Evicted(entries, limits.max) == entries.PopFirst();
    forall k | k in entries.items ensures entries.items[gone] <= entries.items[k] {
      var i :| 0 <= i < |entries.keys| && entries.keys[i] == k;
    }
  }
}
