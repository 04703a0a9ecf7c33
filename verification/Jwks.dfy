/** The key-set cache: freshness, the refetch window, and the remembered misses. One function and one
    method per stretch of code between awaits. */
module Jwks {
  import opened Wrappers
  import opened OrderedDict
  import opened Throttle
  import opened KeySet

  const MAX_REMEMBERED_MISSES := 256

  datatype Config = Config(
    cacheTtl: Time, negativeTtl: Time, refetchInterval: Time, maxKeys: nat, algorithms: seq<string>)

  type Misses = Dict<string, Time>

  datatype Cache = Cache(
    keys: Option<Published>, fetchedAt: Option<Time>, attemptedAt: Option<Time>, missing: Misses)

  const EMPTY: Cache := Cache(None, None, None, Empty())

  datatype Reply = Key(jwk: Jwk) | Absent | Unavailable | Raised

  /** What a fetch can come back with; a transport's own library error is re-raised as it is. */
  datatype FetchResult = Answered(answer: Answer) | Failed | LibraryError

  predicate IsFresh(cfg: Config, c: Cache, now: Time) {
    c.fetchedAt.Some? && now - c.fetchedAt.value < cfg.cacheTtl
  }

  function FreshHit(cfg: Config, c: Cache, kid: string, now: Time): Option<Jwk> {
    if c.keys.Some? && IsFresh(cfg, c, now) && kid in c.keys.value then Some(c.keys.value[kid]) else None
  }

  predicate MayFetch(cfg: Config, c: Cache, now: Time) { MayStart(c.attemptedAt, cfg.refetchInterval, now) }

  datatype Recalled = Recalled(missing: Misses, remembered: bool)

  function IsRemembered(cfg: Config, missing: Misses, kid: string, now: Time): Recalled {
    match missing.Get(kid)
    case None => Recalled(missing, false)
    case Some(at) =>
      if now - at >= cfg.negativeTtl then Recalled(missing.Del(kid), false) else Recalled(missing, true)
  }

  function Evicted(missing: Misses): (m: Misses)
    ensures m.Len() < MAX_REMEMBERED_MISSES && (missing.Valid() ==> m.Valid())
    decreases missing.Len()
  {
    if missing.Len() >= MAX_REMEMBERED_MISSES then Evicted(missing.PopFirst()) else missing
  }

  function Remember(missing: Misses, kid: string, now: Time): (m: Misses)
    ensures missing.Valid() ==> m.Valid()
  {
    Evicted(missing).Put(kid, now)
  }

  datatype Settled = Settled(cache: Cache, reply: Reply)

  /** `_answer`: the set on hand, fresh or not, may prove a key present; only a fresh one an absence. */
  function AnswerFrom(cfg: Config, c: Cache, kid: string, now: Time): Settled {
    if c.keys.Some? && kid in c.keys.value then Settled(c, Key(c.keys.value[kid]))
    else if c.keys.Some? && IsFresh(cfg, c, now) then
      Settled(c.(missing := Remember(c.missing, kid, now)), Absent)
    else Settled(c, Unavailable)
  }

  datatype Entered = Done(cache: Cache, reply: Reply) | Fetch(cache: Cache, previous: Option<Time>)

  /** From the lock being granted to an answer or to the await of a fetch. */
  function Enter(cfg: Config, c: Cache, kid: string, now: Time): Entered {
    var hit := FreshHit(cfg, c, kid, now);
    if hit.Some? then Done(c, Key(hit.value))
    else if MayFetch(cfg, c, now) then Fetch(c.(attemptedAt := Some(now)), c.attemptedAt)
    else
      var recalled := IsRemembered(cfg, c.missing, kid, now);
      var c' := c.(missing := recalled.missing);
      if recalled.remembered then Done(c', Absent)
      else
        var s := AnswerFrom(cfg, c', kid, now);
        Done(s.cache, s.reply)
  }

  function Installed(c: Cache, keys: Published, now: Time): Cache {
    c.(keys := Some(keys), fetchedAt := Some(now), missing := Empty())
  }

  function ParsedResult(cfg: Config, result: FetchResult): Option<Published> {
    if result.Answered? && Parsed(result.answer, cfg.maxKeys, cfg.algorithms).Ok?
    then Some(Parsed(result.answer, cfg.maxKeys, cfg.algorithms).value) else None
  }

  /** From the fetch returning to the answer. */
  function Return(cfg: Config, c: Cache, kid: string, result: FetchResult, now: Time): Settled {
    var keys := ParsedResult(cfg, result);
    if keys.Some? then AnswerFrom(cfg, Installed(c, keys.value, now), kid, now)
    else if result.LibraryError? then Settled(c, Raised)
    else if c.keys.None? then Settled(c, Unavailable)
    else AnswerFrom(cfg, c, kid, now)
  }

  function Abandon(c: Cache, previous: Option<Time>): Cache { c.(attemptedAt := previous) }

  /** An absence is answered exactly from a live remembered miss inside the window, or from a fresh set;
      a remembered miss is answered with no look at the set's own age. */
  lemma {:induction false} AbsentExactly(cfg: Config, c: Cache, kid: string, now: Time)
    ensures Enter(cfg, c, kid, now).Done? && Enter(cfg, c, kid, now).reply == Absent <==>
      && FreshHit(cfg, c, kid, now).None? && !MayFetch(cfg, c, now)
      && (|| (kid in c.missing.items && now - c.missing.items[kid] < cfg.negativeTtl)
          || (c.keys.Some? && kid !in c.keys.value && IsFresh(cfg, c, now)))
  {
  }

  class JwksClient {
    const cfg: Config
    var keys: Option<Published>
    var fetchedAt: Option<Time>
    var attemptedAt: Option<Time>
    var missing: Misses

    ghost function State(): Cache
      reads this
    {
      Cache(keys, fetchedAt, attemptedAt, missing)
    }

    constructor (cfg: Config)
      ensures this.cfg == cfg && State() == EMPTY
    {
      this.cfg := cfg;
      keys, fetchedAt, attemptedAt, missing := None, None, None, Empty();
    }

    /** The unlocked look: it changes nothing. */
    method Look(kid: string, now: Time) returns (hit: Option<Jwk>)
      ensures hit == FreshHit(cfg, State(), kid, now)
    {
      if keys.None? || fetchedAt.None? || now - fetchedAt.value >= cfg.cacheTtl { return None; }
      return if kid in keys.value then Some(keys.value[kid]) else None;
    }

    method RememberMiss(kid: string, now: Time)
      modifies this`missing
      ensures missing == Remember(old(missing), kid, now)
    {
      while missing.Len() >= MAX_REMEMBERED_MISSES
        invariant Evicted(missing) == Evicted(old(missing))
        decreases missing.Len()
      {
        missing := missing.PopFirst();
      }
      missing := missing.Put(kid, now);
    }

    method AnswerFor(kid: string, now: Time) returns (reply: Reply)
      modifies this`missing
      ensures Settled(State(), reply) == AnswerFrom(cfg, old(State()), kid, now)
    {
      if keys.Some? && kid in keys.value { return Key(keys.value[kid]); }
      if keys.Some? && fetchedAt.Some? && now - fetchedAt.value < cfg.cacheTtl {
        RememberMiss(kid, now);
        return Absent;
      }
      return Unavailable;
    }

    /** Under the lock: a reply, or the previous stamp of a fetch that starts now. */
    method EnterLock(kid: string, now: Time) returns (reply: Option<Reply>, previous: Option<Time>)
      modifies this
      ensures match Enter(cfg, old(State()), kid, now)
              case Done(c, r) => State() == c && reply == Some(r)
              case Fetch(c, p) => State() == c && reply == None && previous == p
    {
      previous := None;
      var hit := Look(kid, now);
      if hit.Some? { return Some(Key(hit.value)), None; }
      if MayStart(attemptedAt, cfg.refetchInterval, now) {
        previous := attemptedAt;
        attemptedAt := Some(now);
        return None, previous;
      }
      var at := missing.Get(kid);
      if at.Some? {
        if now - at.value < cfg.negativeTtl { return Some(Absent), None; }
        missing := missing.Del(kid);
      }
      var r := AnswerFor(kid, now);
      return Some(r), None;
    }

    method FetchReturned(kid: string, result: FetchResult, now: Time) returns (reply: Reply)
      modifies this
      ensures Settled(State(), reply) == Return(cfg, old(State()), kid, result, now)
    {
      var parsed := ParsedResult(cfg, result);
      if parsed.Some? {
        keys, fetchedAt, missing := parsed, Some(now), Empty();
        assert State() == Installed(old(State()), parsed.value, now);
      } else if result.LibraryError? {
        return Raised;
      } else if keys.None? {
        return Unavailable;
      }
      reply := AnswerFor(kid, now);
    }

    method FetchCancelled(previous: Option<Time>)
      modifies this`attemptedAt
      ensures State() == Abandon(old(State()), previous)
    {
      attemptedAt := previous;
    }
  }
}
