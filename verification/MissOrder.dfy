/** Whether the remembered misses stay oldest first, which is the order they are evicted in. */
module MissOrder {
  import opened Wrappers
  import opened OrderedDict
  import opened Throttle
  import opened KeySet
  import opened Jwks
  import opened JwksRuns
  import opened JwksCallers

  // ---- one remembered miss

  lemma {:induction false} EvictedInOrder(missing: Misses)
    requires missing.Valid() && InOrder(missing)
    ensures InOrder(Evicted(missing))
    decreases missing.Len()
  {
    if missing.Len() >= MAX_REMEMBERED_MISSES {
      PopKeepsOrder(missing);
      EvictedInOrder(missing.PopFirst());
    }
  }

  ghost predicate StampedBy(missing: Misses, now: Time) { forall k :: k in missing.items ==> missing.items[k] <= now }

  /** Remembering a miss keeps the misses oldest first exactly when no older one, left by the eviction, stands
      behind it. */
  lemma {:induction false} RememberKeepsOrderExactly(missing: Misses, kid: string, now: Time)
    requires missing.Valid() && InOrder(missing) && StampedBy(missing, now)
    ensures InOrder(Remember(missing, kid, now)) <==> LastOfItsTime(Evicted(missing), kid, now)
    ensures StampedBy(Remember(missing, kid, now), now)
  {
    EvictedFits(missing);
    EvictedInOrder(missing);
    PutKeepsOrderExactly(Evicted(missing), kid, now);
  }

  lemma {:induction false} NewMissKeepsOrder(missing: Misses, kid: string, now: Time)
    requires missing.Valid() && InOrder(missing) && StampedBy(missing, now) && !missing.Has(kid)
    ensures InOrder(Remember(missing, kid, now)) && StampedBy(Remember(missing, kid, now), now)
  {
    EvictedFits(missing);
    RememberKeepsOrderExactly(missing, kid, now);
    assert kid !in Evicted(missing).keys;
  }

  /** From a full map in order, eviction takes the miss closest to expiring, and it alone - though it is made
      before the `kid` is looked for, so a held one costs another its place, or loses and retakes its own. */
  lemma {:induction false} EvictsClosestToExpiring(missing: Misses, kid: string, now: Time)
    requires missing.Valid() && InOrder(missing) && missing.Len() == MAX_REMEMBERED_MISSES
    ensures var m, gone := Remember(missing, kid, now), missing.keys[0];
            forall k :: k in missing.items ==>
              (m.Has(k) <==> k != gone || k == kid) && missing.items[gone] <= missing.items[k]
  {
    var gone := missing.keys[0];
    assert Evicted(missing) == missing.PopFirst();
    forall k | k in missing.items ensures missing.items[gone] <= missing.items[k] {
      var i :| 0 <= i < |missing.keys| && missing.keys[i] == k;
    }
  }

  /** And below the bound nothing is: every miss held is kept. */
  lemma {:induction false} KeepsAllBelowBound(missing: Misses, kid: string, now: Time)
    requires missing.Valid() && missing.Len() < 256
    ensures var m := Remember(missing, kid, now);
            && m.Has(kid) && m.items[kid] == now
            && forall k :: k in missing.items && k != kid ==> m.Has(k) && m.items[k] == missing.items[k]
  {
  }

  // ---- one step

  /** A fetch that was made for `kid` while its miss was remembered returns without a set, and the set on hand,
      still fresh, lacks it: the one way a held miss is remembered again. */
  predicate FailsFresh(cfg: Config, s: State, l: Label, now: Time)
    requires JwksRuns.Enabled(s, l, now)
  {
    && l.Returned? && ParsedResult(cfg, l.result).None? && !l.result.LibraryError?
    && s.cache.keys.Some? && s.tasks[l.t].kid !in s.cache.keys.value && IsFresh(cfg, s.cache, now)
  }

  ghost predicate Respects(cfg: Config, s: State, l: Label, now: Time)
    requires JwksRuns.Enabled(s, l, now) && s.cache.missing.Valid()
  {
    FailsFresh(cfg, s, l, now) ==> LastOfItsTime(Evicted(s.cache.missing), s.tasks[l.t].kid, now)
  }

  ghost predicate Ordered(c: Cache, now: Time) { c.missing.Valid() && InOrder(c.missing) && StampedBy(c.missing, now) }

  lemma {:induction false} AnswerKeepsOrderExactly(cfg: Config, c: Cache, kid: string, now: Time)
    requires Ordered(c, now)
    ensures Ordered(AnswerFrom(cfg, c, kid, now).cache, now) <==>
      (c.keys.Some? && kid !in c.keys.value && IsFresh(cfg, c, now) ==> LastOfItsTime(Evicted(c.missing), kid, now))
  {
    var missing := c.missing;
    RememberKeepsOrderExactly(missing, kid, now);
  }

  lemma {:induction false} AnswerNewKeepsOrder(cfg: Config, c: Cache, kid: string, now: Time)
    requires Ordered(c, now) && !c.missing.Has(kid)
    ensures Ordered(AnswerFrom(cfg, c, kid, now).cache, now)
  {
    var missing := c.missing;
    NewMissKeepsOrder(missing, kid, now);
  }

  lemma {:induction false} RecallKeepsOrder(cfg: Config, missing: Misses, kid: string, now: Time)
    requires missing.Valid() && InOrder(missing) && StampedBy(missing, now)
    ensures var recalled := IsRemembered(cfg, missing, kid, now);
            && recalled.missing.Valid() && InOrder(recalled.missing) && StampedBy(recalled.missing, now)
            && (!recalled.remembered ==> !recalled.missing.Has(kid))
  {
    DelKeepsOrder(missing, kid);
  }

  lemma {:induction false} EnterKeepsOrder(cfg: Config, c: Cache, kid: string, now: Time)
    requires Ordered(c, now)
    ensures Ordered(Enter(cfg, c, kid, now).cache, now)
  {
    var recalled := IsRemembered(cfg, c.missing, kid, now);
    RecallKeepsOrder(cfg, c.missing, kid, now);
    if !recalled.remembered { AnswerNewKeepsOrder(cfg, c.(missing := recalled.missing), kid, now); }
  }

  lemma {:induction false} ReturnKeepsOrderExactly(cfg: Config, c: Cache, kid: string, result: FetchResult, now: Time)
    requires Ordered(c, now)
    ensures var fails := ParsedResult(cfg, result).None? && !result.LibraryError?
                         && c.keys.Some? && kid !in c.keys.value && IsFresh(cfg, c, now);
            Ordered(Return(cfg, c, kid, result, now).cache, now) <==>
              (fails ==> LastOfItsTime(Evicted(c.missing), kid, now))
  {
    var keys := ParsedResult(cfg, result);
    if keys.Some? {
      AnswerNewKeepsOrder(cfg, Installed(c, keys.value, now), kid, now);
    } else {
      AnswerKeepsOrderExactly(cfg, c, kid, now);
    }
  }

  lemma {:induction false} StepKeepsOrderExactly(cfg: Config, s: State, l: Label, now: Time)
    requires JwksRuns.Enabled(s, l, now) && Ordered(s.cache, s.now)
    ensures Ordered(JwksRuns.Step(cfg, s, l, now).cache, now) <==> Respects(cfg, s, l, now)
  {
    assert Ordered(s.cache, now);
    match l {
      case Call(t, kid) =>
      case Granted(t) => EnterKeepsOrder(cfg, s.cache, s.tasks[t].kid, now);
      case Returned(t, result) => ReturnKeepsOrderExactly(cfg, s.cache, s.tasks[t].kid, result, now);
      case Cancel(t) =>
    }
  }

  // ---- every run

  /** The misses are in order once the first `n` events have run. */
  ghost predicate OrderedAt(cfg: Config, events: seq<Event>, n: nat)
    requires n <= |events|
  {
    JwksRuns.Run(cfg, events[..n]).Some? && InOrderNow(JwksRuns.Run(cfg, events[..n]).value)
  }

  ghost predicate InOrderNow(s: State) { Ordered(s.cache, s.now) }

  ghost predicate RespectsAt(cfg: Config, events: seq<Event>, n: nat)
    requires n < |events|
  {
    && JwksRuns.Run(cfg, events[..n]).Some?
    && var s := JwksRuns.Run(cfg, events[..n]).value;
       JwksRuns.Enabled(s, events[n].step, events[n].at) && s.cache.missing.Valid()
       && Respects(cfg, s, events[n].step, events[n].at)
  }

  ghost predicate AlwaysOrdered(cfg: Config, events: seq<Event>) {
    forall n :: 0 <= n <= |events| ==> OrderedAt(cfg, events, n)
  }

  ghost predicate AlwaysRespects(cfg: Config, events: seq<Event>) {
    forall n :: 0 <= n < |events| ==> RespectsAt(cfg, events, n)
  }

  /** In every interleaving the remembered misses are oldest first throughout - so that eviction always takes
      the one closest to expiring - exactly when no fetch for a held miss ever fails with an older one behind
      it. */
  lemma {:induction false} MissesStayOrderedExactly(cfg: Config, events: seq<Event>)
    requires Sane(cfg) && JwksRuns.Run(cfg, events).Some?
    ensures AlwaysOrdered(cfg, events) <==> AlwaysRespects(cfg, events)
  {
    if events == [] {
      NothingIsOrdered(cfg);
    } else {
      var before := events[..|events| - 1];
      MissesStayOrderedExactly(cfg, before);
      OrderedSnoc(cfg, events);
      RespectsSnoc(cfg, events);
      LastIsOrdered(cfg, events);
      if OrderedAt(cfg, events, |events| - 1) { LastKeepsOrderExactly(cfg, events); }
    }
  }

  lemma {:induction false} NothingIsOrdered(cfg: Config)
    ensures AlwaysOrdered(cfg, [])
  {
    var none: seq<Event> := [];
    assert none[..0] == none;
    assert OrderedAt(cfg, none, 0);
  }

  lemma {:induction false} LastIsOrdered(cfg: Config, events: seq<Event>)
    requires events != []
    ensures AlwaysOrdered(cfg, events[..|events| - 1]) ==> OrderedAt(cfg, events, |events| - 1)
  {
    var before := events[..|events| - 1];
    assert before[..|before|] == events[..|events| - 1];
    assert AlwaysOrdered(cfg, before) ==> OrderedAt(cfg, before, |before|);
  }

  lemma {:induction false} OrderedSnoc(cfg: Config, events: seq<Event>)
    requires events != []
    ensures AlwaysOrdered(cfg, events) <==>
      AlwaysOrdered(cfg, events[..|events| - 1]) && OrderedAt(cfg, events, |events|)
  {
    var before := events[..|events| - 1];
    forall n | 0 <= n <= |before| ensures OrderedAt(cfg, before, n) <==> OrderedAt(cfg, events, n) {
      assert before[..n] == events[..n];
    }
  }

  lemma {:induction false} RespectsSnoc(cfg: Config, events: seq<Event>)
    requires events != []
    ensures AlwaysRespects(cfg, events) <==>
      AlwaysRespects(cfg, events[..|events| - 1]) && RespectsAt(cfg, events, |events| - 1)
  {
    var before := events[..|events| - 1];
    forall n | 0 <= n < |before| ensures RespectsAt(cfg, before, n) <==> RespectsAt(cfg, events, n) {
      assert before[..n] == events[..n] && before[n] == events[n];
    }
  }

  lemma {:induction false} LastKeepsOrderExactly(cfg: Config, events: seq<Event>)
    requires Sane(cfg) && events != [] && JwksRuns.Run(cfg, events).Some?
    requires OrderedAt(cfg, events, |events| - 1)
    ensures OrderedAt(cfg, events, |events|) <==> RespectsAt(cfg, events, |events| - 1)
  {
    var before, e := events[..|events| - 1], events[|events| - 1];
    assert events[..|events|] == events;
    RunKeeps(cfg, before);
    StepKeepsOrderExactly(cfg, JwksRuns.Run(cfg, before).value, e.step, e.at);
  }

  // ---- a run that falls out of order

  /** No configuration keeps the order: one caller's set is slow to come, so that a second `kid` is missed after
      the first and still inside the window; then a fetch for the first fails while the set is fresh, and its
      miss is stamped again in front of the older one. */
  lemma {:induction false} MissesFallOutOfOrder(cfg: Config, answer: KeySet.Answer, a: string, b: string)
      returns (events: seq<Event>)
    requires Sane(cfg) && Parsed(answer, cfg.maxKeys, cfg.algorithms).Ok? && a != b
    requires var keys := Parsed(answer, cfg.maxKeys, cfg.algorithms).value; a !in keys && b !in keys
    ensures JwksRuns.Run(cfg, events).Some?
    ensures var missing := JwksRuns.Run(cfg, events).value.cache.missing; missing.Valid() && !InOrder(missing)
  {
    var late, mid, last := ThreeTimes(cfg);
    events := FirstMissed(cfg, answer, a, late);
    OneMiss(a, b, late);
    events := MissedAgain(cfg, events, a, b, mid, last);
    Restamped(Remember(Empty(), a, late), a, b, mid, last);
  }

  /** From a first miss inside the window: the second, then the first again. */
  lemma {:induction false} MissedAgain(cfg: Config, events: seq<Event>, a: string, b: string, mid: Time, last: Time)
      returns (after: seq<Event>)
    requires JwksRuns.Run(cfg, events).Some? && mid < last
    requires cfg.refetchInterval > 0.0 ==> mid < cfg.refetchInterval <= last
    requires var s := JwksRuns.Run(cfg, events).value;
             && s.lock == None && 0.0 <= s.now < mid && s.tasks.Keys == {0} && s.cache.attemptedAt == Some(0.0)
             && Lacking(cfg, s.cache, a, last) && Lacking(cfg, s.cache, b, last) && b !in s.cache.missing.items
    ensures JwksRuns.Run(cfg, after).Some?
    ensures JwksRuns.Run(cfg, after).value.cache.missing
         == Remember(Remember(JwksRuns.Run(cfg, events).value.cache.missing, b, mid), a, last)
  {
    after := SecondMissed(cfg, events, b, mid);
    after := AskLacking(cfg, after, 2, a, last);
  }

  lemma {:induction false} FirstMissed(cfg: Config, answer: KeySet.Answer, a: string, late: Time)
      returns (events: seq<Event>)
    requires Sane(cfg) && Parsed(answer, cfg.maxKeys, cfg.algorithms).Ok? && late >= 0.0
    requires a !in Parsed(answer, cfg.maxKeys, cfg.algorithms).value
    ensures JwksRuns.Run(cfg, events).Some?
    ensures var s := JwksRuns.Run(cfg, events).value;
            && s.lock == None && s.now == late && s.tasks.Keys == {0}
            && s.cache == Cache(ParsedResult(cfg, Answered(answer)), Some(late), Some(0.0), Remember(Empty(), a, late))
  {
    SlowSet(cfg, a, answer, late);
    events := FirstAsk(cfg, a, late, Answered(answer));
  }

  /** The second miss, after which the window is open again by the time the first is asked for. */
  lemma {:induction false} SecondMissed(cfg: Config, events: seq<Event>, b: string, mid: Time)
      returns (after: seq<Event>)
    requires JwksRuns.Run(cfg, events).Some? && (cfg.refetchInterval > 0.0 ==> mid < cfg.refetchInterval)
    requires var s := JwksRuns.Run(cfg, events).value;
             && s.lock == None && s.now < mid && s.now >= 0.0 && s.tasks.Keys == {0} && s.cache.attemptedAt == Some(0.0)
             && Lacking(cfg, s.cache, b, mid) && b !in s.cache.missing.items
    ensures JwksRuns.Run(cfg, after).Some?
    ensures var s := JwksRuns.Run(cfg, events).value; var s' := JwksRuns.Run(cfg, after).value;
            && s'.lock == None && s'.now == mid && s'.tasks.Keys == {0, 1}
            && s'.cache.keys == s.cache.keys && s'.cache.fetchedAt == s.cache.fetchedAt
            && s'.cache.missing == Remember(s.cache.missing, b, mid)
            && (forall at :: at >= mid && at >= cfg.refetchInterval ==> MayFetch(cfg, s'.cache, at))
  {
    after := AskLacking(cfg, events, 1, b, mid);
  }

  lemma {:induction false} ThreeTimes(cfg: Config) returns (late: Time, mid: Time, last: Time)
    requires Sane(cfg)
    ensures 0.0 <= late < mid < last < late + cfg.cacheTtl
    ensures cfg.refetchInterval > 0.0 ==> mid < cfg.refetchInterval <= last
  {
    var half := cfg.cacheTtl / 2.0;
    last := if cfg.refetchInterval > 0.0 then cfg.refetchInterval else half;
    late := if last > half then last - half else 0.0;
    mid := (late + last) / 2.0;
  }

  lemma {:induction false} SlowSet(cfg: Config, kid: string, answer: KeySet.Answer, late: Time)
    requires Sane(cfg) && Parsed(answer, cfg.maxKeys, cfg.algorithms).Ok?
    requires kid !in Parsed(answer, cfg.maxKeys, cfg.algorithms).value
    ensures Return(cfg, EMPTY.(attemptedAt := Some(0.0)), kid, Answered(answer), late).cache
         == Cache(ParsedResult(cfg, Answered(answer)), Some(late), Some(0.0), Remember(Empty(), kid, late))
  {
  }

  lemma {:induction false} OneMiss(a: string, b: string, late: Time)
    requires a != b
    ensures var missing := Remember(Empty(), a, late); missing.keys == [a] && a in missing.items && b !in missing.items
  {
  }

  lemma {:induction false} Restamped(missing: Misses, a: string, b: string, mid: Time, last: Time)
    requires missing.Valid() && missing.keys == [a] && a != b && mid < last
    ensures var m := Remember(Remember(missing, b, mid), a, last); m.Valid() && !InOrder(m)
  {
    assert a in missing.keys && b !in missing.keys;
    var m := Remember(Remember(missing, b, mid), a, last);
    assert m.keys == [a, b];
    assert m.items[m.keys[0]] > m.items[m.keys[1]];
  }
}
