/** A run of the verifier whose negative cache falls out of order. */
module CacheOrder {
  import opened Wrappers
  import opened OrderedDict
  import opened Throttle
  import opened RemoteResponse
  import opened RemoteVerifier
  import opened RemoteRuns
  import LatchedSends
  import Cache = NegativeCache

  /** Two requests with one cookie wait for a slot together, a third waits with another cookie; the first, the
      third and the second are answered `null` in that order, and the second answer stamps the first cookie
      again in front of the older entry. Whatever the TTL, the slots and the bound, if it holds two. */
  lemma {:induction false} CacheFallsOutOfOrder(
      cfg: Config, req: Request, other: Request, a: Admitted, b: Admitted, nothing: Response)
      returns (events: seq<Event>)
    requires cfg.limits.max >= 2 && cfg.limits.ttl > 0.0 && cfg.concurrency >= 1
    requires Precheck(cfg, req) == Ok(a) && Precheck(cfg, other) == Ok(b)
    requires cfg.digest(a.material) != cfg.digest(b.material)
    requires IsCacheableNull(nothing) && "set-cookie" !in nothing.headers
    ensures Run(cfg, events).Some?
    ensures var cache := Run(cfg, events).value.gate.cache; cache.Valid() && !InOrder(cache)
  {
    events := ThreeWaiting(cfg, req, other, a, b, nothing);
    var s := Run(cfg, events).value;
    events, s := AnsweredNull(cfg, events, s, 0, a, nothing, 1.0);
    events, s := AnsweredNull(cfg, events, s, 2, b, nothing, 2.0);
    events, s := AnsweredNull(cfg, events, s, 1, a, nothing, 3.0);
    Restamped(cfg.limits, cfg.digest(a.material), cfg.digest(b.material));
  }

  lemma {:induction false} ThreeWaiting(
      cfg: Config, req: Request, other: Request, a: Admitted, b: Admitted, nothing: Response)
      returns (events: seq<Event>)
    requires cfg.limits.max >= 1 && Precheck(cfg, req) == Ok(a) && Precheck(cfg, other) == Ok(b)
    requires IsCacheableNull(nothing) && "set-cookie" !in nothing.headers
    ensures Run(cfg, events).Some?
    ensures var s := Run(cfg, events).value;
            && s.tasks == map[0 := AwaitSlot(a), 1 := AwaitSlot(a), 2 := AwaitSlot(b)]
            && s.now == 0.0 && s.borrowers == {} && s.gate.cache == SHUT.cache
  {
    events := LatchedSends.TwoWaiting(cfg, req, nothing);
    events := ThirdWaits(cfg, events, other, b);
  }

  lemma {:induction false} OneMore(cfg: Config, events: seq<Event>, step: Step, at: Time) returns (after: seq<Event>)
    requires cfg.limits.max >= 1 && Run(cfg, events).Some? && Enabled(cfg, Run(cfg, events).value, step, at)
    ensures Run(cfg, after) == Some(Apply(cfg, Run(cfg, events).value, step, at))
  {
    after := events + [Event(step, at)];
    assert after[..|events|] == events;
  }

  lemma {:induction false} ThirdWaits(cfg: Config, events: seq<Event>, req: Request, b: Admitted)
      returns (after: seq<Event>)
    requires cfg.limits.max >= 1 && Precheck(cfg, req) == Ok(b) && Run(cfg, events).Some?
    requires var s := Run(cfg, events).value; LatchedSends.Fresh(s) && s.gate.probedOk && s.tasks.Keys == {0, 1}
    ensures Run(cfg, after).Some?
    ensures var s := Run(cfg, events).value; var s' := Run(cfg, after).value;
            LatchedSends.Fresh(s') && s'.tasks == s.tasks[2 := AwaitSlot(b)]
  {
    assert 2 !in Run(cfg, events).value.tasks.Keys;
    after := OneMore(cfg, events, CallVerify(2, req), 0.0);
  }

  /** One waiting request gets a slot and its answer. */
  lemma {:induction false} AnsweredNull(
      cfg: Config, events: seq<Event>, s: State, t: Task, a: Admitted, nothing: Response, at: Time)
      returns (after: seq<Event>, s': State)
    requires cfg.limits.max >= 1 && cfg.concurrency >= 1 && IsCacheableNull(nothing) && Run(cfg, events) == Some(s)
    requires s.now <= at && s.borrowers == {} && t in s.tasks && s.tasks[t] == AwaitSlot(a)
    ensures Run(cfg, after) == Some(s') && AnsweredFrom(cfg, s, s', t, a, at)
  {
    SlotThenNull(cfg, s, t, a, nothing, at);
    after := OneMore(cfg, events, SlotGranted(t), at);
    after := OneMore(cfg, after, FetchAnswered(t, Answered(nothing), 0.0), at);
    s' := FetchStep(cfg, SlotStep(s, t, at), t, Answered(nothing), at, 0.0);
  }

  ghost predicate AnsweredFrom(cfg: Config, s: State, s': State, t: Task, a: Admitted, at: Time)
    requires cfg.limits.max >= 1
  {
    && s'.now == at && s'.borrowers == {} && t in s'.tasks && s'.tasks == s.tasks[t := s'.tasks[t]]
    && s'.gate.cache == Cache.Remember(cfg.limits, s.gate.cache, cfg.digest(a.material), at)
  }

  lemma {:induction false} SlotThenNull(cfg: Config, s: State, t: Task, a: Admitted, nothing: Response, at: Time)
    requires cfg.limits.max >= 1 && cfg.concurrency >= 1 && IsCacheableNull(nothing)
    requires s.borrowers == {} && t in s.tasks && s.tasks[t] == AwaitSlot(a)
    ensures AnsweredFrom(cfg, s, FetchStep(cfg, SlotStep(s, t, at), t, Answered(nothing), at, 0.0), t, a, at)
  {
    var s' := FetchStep(cfg, SlotStep(s, t, at), t, Answered(nothing), at, 0.0);
    assert s'.borrowers == {};
    assert s'.tasks == s.tasks[t := s'.tasks[t]];
  }

  lemma {:induction false} Restamped(limits: Cache.Limits, a: Cache.Key, b: Cache.Key)
    requires limits.max >= 2 && limits.ttl > 0.0 && a != b
    ensures var once := Cache.Remember(limits, Cache.Remember(limits, SHUT.cache, a, 1.0), b, 2.0);
            var cache := Cache.Remember(limits, once, a, 3.0);
            cache.Valid() && !InOrder(cache)
  {
    FirstTwo(limits, a, b);
    OutOfOrder(limits, Dict([a, b], map[a := 1.0, b := 2.0]), a, b);
  }

  lemma {:induction false} FirstTwo(limits: Cache.Limits, a: Cache.Key, b: Cache.Key)
    requires limits.max >= 2 && limits.ttl > 0.0 && a != b
    ensures Cache.Remember(limits, Cache.Remember(limits, SHUT.cache, a, 1.0), b, 2.0)
         == Dict([a, b], map[a := 1.0, b := 2.0])
  {
    FirstOne(limits, a);
    var one: Cache.Entries := Dict([a], map[a := 1.0]);
    assert Cache.Remember(limits, one, b, 2.0) == one.Put(b, 2.0);
  }

  lemma {:induction false} FirstOne(limits: Cache.Limits, a: Cache.Key)
    requires limits.max >= 2 && limits.ttl > 0.0
    ensures Cache.Remember(limits, SHUT.cache, a, 1.0) == Dict([a], map[a := 1.0])
  {
  }

  lemma {:induction false} OutOfOrder(limits: Cache.Limits, two: Cache.Entries, a: Cache.Key, b: Cache.Key)
    requires limits.max >= 2 && limits.ttl > 0.0 && a != b && two == Dict([a, b], map[a := 1.0, b := 2.0])
    ensures var cache := Cache.Remember(limits, two, a, 3.0); cache.Valid() && !InOrder(cache)
  {
    var cache := Cache.Remember(limits, two, a, 3.0);
    assert cache.keys == [a, b] && cache.items[cache.keys[0]] > cache.items[cache.keys[1]];
  }
}
