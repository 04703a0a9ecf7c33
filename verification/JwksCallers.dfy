/** One `key_for` caller alone, from its call to its reply: the pieces runs of the key-set cache are built of. */
module JwksCallers {
  import opened Wrappers
  import opened Throttle
  import opened Jwks
  import opened JwksRuns

  lemma {:induction false} RunNext(cfg: Config, events: seq<Event>, e: Event)
    requires Run(cfg, events).Some? && Enabled(Run(cfg, events).value, e.step, e.at)
    ensures Run(cfg, events + [e]) == Some(Step(cfg, Run(cfg, events).value, e.step, e.at))
  {
    assert (events + [e])[..|events|] == events;
  }

  /** With the window open: call, lock and fetch at `at`, the fetch back at `end`. */
  lemma {:induction false} Ask(
      cfg: Config, events: seq<Event>, t: Task, kid: string, at: Time, end: Time, result: FetchResult)
      returns (after: seq<Event>)
    requires Run(cfg, events).Some?
    requires var s := Run(cfg, events).value;
             && s.now <= at <= end && t !in s.tasks && s.lock == None
             && FreshHit(cfg, s.cache, kid, at).None? && MayFetch(cfg, s.cache, at)
    ensures Run(cfg, after).Some?
    ensures var s := Run(cfg, events).value; var s' := Run(cfg, after).value;
            var settled := Return(cfg, s.cache.(attemptedAt := Some(at)), kid, result, end);
            var keys := ParsedResult(cfg, result);
            && s'.cache == settled.cache && s'.lock == None && s'.now == end
            && s'.tasks == s.tasks[t := Replied(kid, settled.reply, end)]
            && s'.sets == if keys.Some? then s.sets + [Fetched(keys.value, end)] else s.sets
  {
    var s := Run(cfg, events).value;
    RunNext(cfg, events, Event(Call(t, kid), at));
    after := events + [Event(Call(t, kid), at)];
    RunNext(cfg, after, Event(Granted(t), at));
    after := after + [Event(Granted(t), at)];
    RunNext(cfg, after, Event(Returned(t, result), end));
    after := after + [Event(Returned(t, result), end)];
    assert Run(cfg, after).value.tasks == s.tasks[t := Run(cfg, after).value.tasks[t]];
  }

  /** The first caller of all. */
  lemma {:induction false} FirstAsk(cfg: Config, kid: string, end: Time, result: FetchResult)
      returns (events: seq<Event>)
    requires end >= 0.0
    ensures Run(cfg, events).Some?
    ensures var s := Run(cfg, events).value; var keys := ParsedResult(cfg, result);
            && s.cache == Return(cfg, EMPTY.(attemptedAt := Some(0.0)), kid, result, end).cache
            && s.lock == None && s.now == end && s.tasks.Keys == {0}
            && s.sets == if keys.Some? then [Fetched(keys.value, end)] else []
  {
    var none: seq<Event> := [];
    assert Run(cfg, none) == Some(START);
    events := Ask(cfg, none, 0, kid, 0.0, end, result);
  }

  /** With the window closed: call, lock, reply. */
  lemma {:induction false} AskInside(cfg: Config, events: seq<Event>, t: Task, kid: string, at: Time)
      returns (after: seq<Event>)
    requires Run(cfg, events).Some?
    requires var s := Run(cfg, events).value;
             && s.now <= at && t !in s.tasks && s.lock == None && FreshHit(cfg, s.cache, kid, at).None?
             && Enter(cfg, s.cache, kid, at).Done?
    ensures Run(cfg, after).Some?
    ensures var s := Run(cfg, events).value; var s' := Run(cfg, after).value;
            var e := Enter(cfg, s.cache, kid, at);
            && s'.cache == e.cache && s'.lock == None && s'.now == at && s'.sets == s.sets
            && s'.tasks == s.tasks[t := Replied(kid, e.reply, at)]
    ensures after != [] && Run(cfg, after[..|after| - 1]).Some?
    ensures var before := Run(cfg, after[..|after| - 1]).value; t in before.tasks && before.tasks[t].Waiting?
  {
    RunNext(cfg, events, Event(Call(t, kid), at));
    var called := events + [Event(Call(t, kid), at)];
    RunNext(cfg, called, Event(Granted(t), at));
    after := called + [Event(Granted(t), at)];
    assert after[..|after| - 1] == called;
  }

  /** A fresh set on hand that lacks `kid`. */
  predicate Lacking(cfg: Config, c: Cache, kid: string, at: Time) {
    c.keys.Some? && kid !in c.keys.value && IsFresh(cfg, c, at)
  }

  /** A caller for a `kid` a fresh set lacks leaves the miss remembered: by its own failed fetch where one may
      start, and otherwise, unless a live miss answers first, from the set on hand. */
  lemma {:induction false} AskLacking(cfg: Config, events: seq<Event>, t: Task, kid: string, at: Time)
      returns (after: seq<Event>)
    requires Run(cfg, events).Some?
    requires var s := Run(cfg, events).value;
             && s.now <= at && t !in s.tasks && s.lock == None && Lacking(cfg, s.cache, kid, at)
             && (MayFetch(cfg, s.cache, at) || kid !in s.cache.missing.items)
    ensures Run(cfg, after).Some?
    ensures var s := Run(cfg, events).value; var s' := Run(cfg, after).value;
            && s'.lock == None && s'.now == at && s'.sets == s.sets && s'.tasks.Keys == s.tasks.Keys + {t}
            && s'.cache == s.cache.(
                 missing := Remember(s.cache.missing, kid, at),
                 attemptedAt := if MayFetch(cfg, s.cache, at) then Some(at) else s.cache.attemptedAt)
  {
    var c := Run(cfg, events).value.cache;
    if MayFetch(cfg, c, at) {
      FailedFetchRemembers(cfg, c.(attemptedAt := Some(at)), kid, at);
      after := Ask(cfg, events, t, kid, at, at, Failed);
    } else {
      NoFetchRemembers(cfg, c, kid, at);
      after := AskInside(cfg, events, t, kid, at);
    }
  }

  lemma {:induction false} FailedFetchRemembers(cfg: Config, c: Cache, kid: string, at: Time)
    requires Lacking(cfg, c, kid, at)
    ensures Return(cfg, c, kid, Failed, at).cache == c.(missing := Remember(c.missing, kid, at))
  {
  }

  lemma {:induction false} NoFetchRemembers(cfg: Config, c: Cache, kid: string, at: Time)
    requires Lacking(cfg, c, kid, at) && kid !in c.missing.items && !MayFetch(cfg, c, at)
    ensures var e := Enter(cfg, c, kid, at); e.Done? && e.cache == c.(missing := Remember(c.missing, kid, at))
  {
  }
}
