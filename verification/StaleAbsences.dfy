/** An absence told from a key set that is no longer fresh: exactly which configurations allow it. */
module StaleAbsences {
  import opened Wrappers
  import opened OrderedDict
  import opened Throttle
  import opened KeySet
  import opened Jwks
  import opened JwksRuns
  import opened JwksCallers

  /** The last event of the run answers task `t` with an absence, from a set past its freshness. */
  ghost predicate StaleAbsence(cfg: Config, events: seq<Event>, t: Task) {
    && events != [] && Run(cfg, events).Some?
    && var s, before := Run(cfg, events).value, Run(cfg, events[..|events| - 1]).value;
       && t in s.tasks && s.tasks[t].Replied? && s.tasks[t].reply == Absent
       && (t in before.tasks ==> !before.tasks[t].Replied?)
       && s.sets != [] && s.now - s.sets[|s.sets| - 1].at >= cfg.cacheTtl
  }

  /** A remembered miss can outlive the freshness of the set it was read from exactly when misses are
      remembered at all and refetching is ever held back. */
  lemma {:induction false} AbsenceIsFreshExactly(cfg: Config, answer: KeySet.Answer, kid: string)
    requires Sane(cfg) && Parsed(answer, cfg.maxKeys, cfg.algorithms).Ok?
    requires kid !in Parsed(answer, cfg.maxKeys, cfg.algorithms).value
    ensures (forall events, t :: !StaleAbsence(cfg, events, t)) <==>
      cfg.refetchInterval <= 0.0 || cfg.negativeTtl <= 0.0
  {
    if cfg.refetchInterval > 0.0 && cfg.negativeTtl > 0.0 {
      var events := StaleAbsenceHappens(cfg, answer, kid);
      assert StaleAbsence(cfg, events, 3);
    } else {
      forall events, t ensures !StaleAbsence(cfg, events, t) { NoStaleAbsence(cfg, events, t); }
    }
  }

  // ---- where it cannot happen

  lemma {:induction false} NoStaleAbsence(cfg: Config, events: seq<Event>, t: Task)
    requires Sane(cfg) && (cfg.refetchInterval <= 0.0 || cfg.negativeTtl <= 0.0)
    ensures !StaleAbsence(cfg, events, t)
  {
    if StaleAbsence(cfg, events, t) {
      if cfg.negativeTtl > 0.0 { OpenWindowTellsFresh(cfg, events, t); } else { NoMissTellsFresh(cfg, events, t); }
    }
  }

  /** With no misses remembered, an absence is only ever told from a fresh set. */
  lemma {:induction false} NoMissTellsFresh(cfg: Config, events: seq<Event>, t: Task)
    requires Sane(cfg) && cfg.negativeTtl <= 0.0 && events != [] && Run(cfg, events).Some?
    requires var s, before := Run(cfg, events).value, Run(cfg, events[..|events| - 1]).value;
             && t in s.tasks && s.tasks[t].Replied? && s.tasks[t].reply == Absent
             && (t in before.tasks ==> !before.tasks[t].Replied?)
    ensures var s := Run(cfg, events).value; s.sets != [] && s.now - s.sets[|s.sets| - 1].at < cfg.cacheTtl
  {
    EveryReplyIsJustified(cfg, events, t);
  }

  /** With nothing holding refetches back, an absence is only ever told by the fetch that just returned or
      failed, from a set then fresh. */
  lemma {:induction false} OpenWindowTellsFresh(cfg: Config, events: seq<Event>, t: Task)
    requires Sane(cfg) && cfg.refetchInterval <= 0.0 && events != [] && Run(cfg, events).Some?
    requires var s, before := Run(cfg, events).value, Run(cfg, events[..|events| - 1]).value;
             && t in s.tasks && s.tasks[t].Replied? && s.tasks[t].reply == Absent
             && (t in before.tasks ==> !before.tasks[t].Replied?)
    ensures var s := Run(cfg, events).value; s.sets != [] && s.now - s.sets[|s.sets| - 1].at < cfg.cacheTtl
  {
    var last := events[|events| - 1];
    RunKeeps(cfg, events[..|events| - 1]);
    RunKeeps(cfg, events);
    StepTellsFresh(cfg, Run(cfg, events[..|events| - 1]).value, last.step, last.at, t);
  }

  lemma {:induction false} StepTellsFresh(cfg: Config, s: State, l: Label, now: Time, t: Task)
    requires Sane(cfg) && cfg.refetchInterval <= 0.0 && Enabled(s, l, now) && WindowInv(cfg, s)
    requires var s' := Step(cfg, s, l, now);
             && SetInv(cfg, s') && t in s'.tasks && s'.tasks[t].Replied? && s'.tasks[t].reply == Absent
             && (t in s.tasks ==> !s.tasks[t].Replied?)
    ensures var s' := Step(cfg, s, l, now); s'.sets != [] && s'.now - s'.sets[|s'.sets| - 1].at < cfg.cacheTtl
  {
    match l {
      case Granted(u) => AbsentExactly(cfg, s.cache, s.tasks[u].kid, now);
      case Returned(u, result) => ReturnedTellsFresh(cfg, s, u, result, now);
      case _ =>
    }
  }

  lemma {:induction false} ReturnedTellsFresh(cfg: Config, s: State, t: Task, result: FetchResult, now: Time)
    requires Sane(cfg) && Enabled(s, Returned(t, result), now)
    requires var s' := ReturnedStep(cfg, s, t, result, now);
             SetInv(cfg, s') && s'.tasks[t].reply == Absent
    ensures var s' := ReturnedStep(cfg, s, t, result, now);
            s'.sets != [] && now - s'.sets[|s'.sets| - 1].at < cfg.cacheTtl
  {
    ReturnTellsFresh(cfg, s.cache, s.tasks[t].kid, result, now);
  }

  lemma {:induction false} ReturnTellsFresh(cfg: Config, c: Cache, kid: string, result: FetchResult, now: Time)
    requires Return(cfg, c, kid, result, now).reply == Absent
    ensures IsFresh(cfg, Return(cfg, c, kid, result, now).cache, now)
  {
  }

  // ---- a run that does it

  /** Whatever the other settings: a set is fetched on behalf of another `kid`; just before it turns stale a
      second caller has the miss remembered; as it does, a third caller's fetch fails if one may start; the
      fourth is told of the miss. */
  lemma {:induction false} StaleAbsenceHappens(cfg: Config, answer: KeySet.Answer, kid: string)
      returns (events: seq<Event>)
    requires Sane(cfg) && cfg.refetchInterval > 0.0 && cfg.negativeTtl > 0.0
    requires Parsed(answer, cfg.maxKeys, cfg.algorithms).Ok?
    requires kid !in Parsed(answer, cfg.maxKeys, cfg.algorithms).value
    ensures StaleAbsence(cfg, events, 3)
  {
    var u := JustBeforeStale(cfg);
    assert |kid + "-"| == |kid| + 1;
    events := FetchForAnother(cfg, answer, kid, kid + "-");
    events := MissRemembered(cfg, events, kid, u);
    events := WindowClosed(cfg, events, kid, cfg.cacheTtl);
    AbsentExactly(cfg, Run(cfg, events).value.cache, kid, cfg.cacheTtl);
    events := AskInside(cfg, events, 3, kid, cfg.cacheTtl);
  }

  lemma {:induction false} JustBeforeStale(cfg: Config) returns (u: Time)
    requires cfg.negativeTtl > 0.0 && cfg.cacheTtl > 0.0
    ensures 0.0 < u < cfg.cacheTtl && cfg.cacheTtl - u < cfg.negativeTtl
  {
    u := cfg.cacheTtl - (if cfg.cacheTtl <= cfg.negativeTtl then cfg.cacheTtl else cfg.negativeTtl) / 2.0;
  }

  /** Nobody is asking, the set fetched at the start lacks `kid`, and `free` is the next unused task. */
  ghost predicate Quiet(s: State, kid: string, free: Task) {
    && s.lock == None && (forall t :: t in s.tasks ==> t < free)
    && s.cache.keys.Some? && kid !in s.cache.keys.value && s.cache.fetchedAt == Some(0.0)
    && s.sets != [] && s.sets[|s.sets| - 1].at == 0.0
  }

  lemma {:induction false} FetchForAnother(cfg: Config, answer: KeySet.Answer, kid: string, other: string)
      returns (events: seq<Event>)
    requires Sane(cfg) && Parsed(answer, cfg.maxKeys, cfg.algorithms).Ok?
    requires kid != other && kid !in Parsed(answer, cfg.maxKeys, cfg.algorithms).value
    ensures Run(cfg, events).Some?
    ensures var s := Run(cfg, events).value; Quiet(s, kid, 1) && s.now == 0.0 && kid !in s.cache.missing.items
  {
    SetInstalled(cfg, EMPTY.(attemptedAt := Some(0.0)), kid, other, answer);
    events := FirstAsk(cfg, other, 0.0, Answered(answer));
    FirstAskIsQuiet(cfg, answer, kid, Run(cfg, events).value);
  }

  lemma {:induction false} FirstAskIsQuiet(cfg: Config, answer: KeySet.Answer, kid: string, s: State)
    requires Parsed(answer, cfg.maxKeys, cfg.algorithms).Ok?
    requires kid !in Parsed(answer, cfg.maxKeys, cfg.algorithms).value
    requires s.cache.keys == ParsedResult(cfg, Answered(answer)) && s.cache.fetchedAt == Some(0.0) && s.lock == None
    requires s.tasks.Keys == {0} && s.sets == [Fetched(ParsedResult(cfg, Answered(answer)).value, 0.0)]
    ensures Quiet(s, kid, 1)
  {
    assert forall t :: t in s.tasks <==> t in s.tasks.Keys;
  }

  lemma {:induction false} SetInstalled(cfg: Config, c: Cache, kid: string, other: string, answer: KeySet.Answer)
    requires Parsed(answer, cfg.maxKeys, cfg.algorithms).Ok? && kid != other
    ensures var c' := Return(cfg, c, other, Answered(answer), 0.0).cache;
            && c'.keys == ParsedResult(cfg, Answered(answer)) && c'.keys.Some?
            && c'.fetchedAt == Some(0.0) && kid !in c'.missing.items
  {
    var keys := ParsedResult(cfg, Answered(answer)).value;
    AnswerElsewhere(cfg, Installed(c, keys, 0.0), kid, other, 0.0);
  }

  lemma {:induction false} AnswerElsewhere(cfg: Config, c: Cache, kid: string, other: string, now: Time)
    requires c.missing == Empty() && kid != other
    ensures var c' := AnswerFrom(cfg, c, other, now).cache;
            c'.keys == c.keys && c'.fetchedAt == c.fetchedAt && kid !in c'.missing.items
  {
  }

  /** A second caller, while the set is fresh, leaves the miss remembered. */
  lemma {:induction false} MissRemembered(cfg: Config, events: seq<Event>, kid: string, at: Time)
      returns (after: seq<Event>)
    requires Run(cfg, events).Some?
    requires var s := Run(cfg, events).value;
             && Quiet(s, kid, 1) && s.now <= at && kid !in s.cache.missing.items && IsFresh(cfg, s.cache, at)
    ensures Run(cfg, after).Some?
    ensures var s := Run(cfg, after).value;
            && Quiet(s, kid, 2) && s.now == at && kid in s.cache.missing.items && s.cache.missing.items[kid] == at
  {
    after := AskLacking(cfg, events, 1, kid, at);
    assert forall t :: t in Run(cfg, after).value.tasks <==> t in Run(cfg, after).value.tasks.Keys;
  }

  /** A third caller, with the set stale: where the window is open its fetch fails and closes it. */
  lemma {:induction false} WindowClosed(cfg: Config, events: seq<Event>, kid: string, at: Time)
      returns (after: seq<Event>)
    requires Run(cfg, events).Some? && cfg.refetchInterval > 0.0
    requires var s := Run(cfg, events).value; Quiet(s, kid, 2) && s.now <= at && !IsFresh(cfg, s.cache, at)
    ensures Run(cfg, after).Some?
    ensures var s := Run(cfg, after).value;
            && Quiet(s, kid, 3) && s.now <= at && !MayFetch(cfg, s.cache, at)
            && s.cache.missing == Run(cfg, events).value.cache.missing
  {
    after := events;
    if MayFetch(cfg, Run(cfg, events).value.cache, at) {
      StaleFailureChangesNothing(cfg, Run(cfg, events).value.cache.(attemptedAt := Some(at)), kid, at);
      after := Ask(cfg, events, 2, kid, at, at, Failed);
    }
  }

  lemma {:induction false} StaleFailureChangesNothing(cfg: Config, c: Cache, kid: string, at: Time)
    requires c.keys.Some? && kid !in c.keys.value && !IsFresh(cfg, c, at)
    ensures Return(cfg, c, kid, Failed, at).cache == c
  {
  }
}
