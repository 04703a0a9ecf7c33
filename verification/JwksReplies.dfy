/** What each stretch of `key_for` answers, exactly, from the key sets parsed and the fetches made so far. */
module JwksReplies {
  import opened Wrappers
  import opened Throttle
  import opened KeySet
  import opened Jwks
  import opened JwksRuns

  ghost predicate FreshAt(cfg: Config, s: State, now: Time) {
    s.sets != [] && now - s.sets[|s.sets| - 1].at < cfg.cacheTtl
  }

  ghost predicate Publishes(s: State, kid: string) { s.sets != [] && kid in s.sets[|s.sets| - 1].keys }

  function NewestKey(s: State, kid: string): Jwk
    requires Publishes(s, kid)
  {
    s.sets[|s.sets| - 1].keys[kid]
  }

  /** The last fetch that counts started too short a while ago for another. */
  ghost predicate HeldBack(cfg: Config, s: State, now: Time) {
    LastKept(s.attempts).Some? && now - LastKept(s.attempts).value < cfg.refetchInterval
  }

  ghost predicate MissHeld(cfg: Config, s: State, kid: string, now: Time) {
    kid in s.cache.missing.items && now - s.cache.missing.items[kid] < cfg.negativeTtl
  }

  /** At the call: a key the newest set publishes is answered at once while that set is fresh; every other
      caller waits for the lock. */
  lemma {:induction false} CallAnswersExactly(cfg: Config, events: seq<Event>, t: Task, kid: string, now: Time)
    requires Sane(cfg) && Run(cfg, events).Some? && Enabled(Run(cfg, events).value, Call(t, kid), now)
    ensures var s := Run(cfg, events).value;
            CallStep(cfg, s, t, kid, now).tasks[t] ==
              if FreshAt(cfg, s, now) && Publishes(s, kid) then Replied(kid, Key(NewestKey(s, kid)), now)
              else Waiting(kid)
  {
    RunKeeps(cfg, events);
  }

  /** Under the lock: such a key again; failing that, a fetch, unless one is held back; and while it is, an
      absence from a live remembered miss, a key of the newest set however old, an absence from a fresh set,
      or no answer, in that order. */
  lemma {:induction false} LockAnswersExactly(cfg: Config, events: seq<Event>, t: Task, now: Time)
    requires Sane(cfg) && Run(cfg, events).Some? && Enabled(Run(cfg, events).value, Granted(t), now)
    ensures var s := Run(cfg, events).value; var kid := s.tasks[t].kid;
            GrantedStep(cfg, s, t, now).tasks[t] ==
              if FreshAt(cfg, s, now) && Publishes(s, kid) then Replied(kid, Key(NewestKey(s, kid)), now)
              else if !HeldBack(cfg, s, now) then Fetching(kid, LastKept(s.attempts))
              else if MissHeld(cfg, s, kid, now) then Replied(kid, Absent, now)
              else if Publishes(s, kid) then Replied(kid, Key(NewestKey(s, kid)), now)
              else if FreshAt(cfg, s, now) then Replied(kid, Absent, now)
              else Replied(kid, Unavailable, now)
  {
    RunKeeps(cfg, events);
    EnterExactly(cfg, Run(cfg, events).value, Run(cfg, events).value.tasks[t].kid, now);
  }

  lemma {:induction false} EnterExactly(cfg: Config, s: State, kid: string, now: Time)
    requires SetInv(cfg, s) && MissesFit(cfg, s.cache) && s.cache.attemptedAt == LastKept(s.attempts)
    ensures var e := Enter(cfg, s.cache, kid, now);
            if FreshAt(cfg, s, now) && Publishes(s, kid) then e.Done? && e.reply == Key(NewestKey(s, kid))
            else if !HeldBack(cfg, s, now) then e.Fetch? && e.previous == LastKept(s.attempts)
            else
              e.Done? && e.reply == (
                if MissHeld(cfg, s, kid, now) then Absent
                else if Publishes(s, kid) then Key(NewestKey(s, kid))
                else if FreshAt(cfg, s, now) then Absent
                else Unavailable)
  {
  }

  /** When the fetch is back: from the set it brought; the library's own error as it is; and failing both, from
      the newest set of before. */
  lemma {:induction false} FetchAnswersExactly(
      cfg: Config, events: seq<Event>, t: Task, result: FetchResult, now: Time)
    requires Sane(cfg) && Run(cfg, events).Some? && Enabled(Run(cfg, events).value, Returned(t, result), now)
    ensures var s := Run(cfg, events).value; var kid := s.tasks[t].kid; var keys := ParsedResult(cfg, result);
            ReturnedStep(cfg, s, t, result, now).tasks[t] == Replied(kid,
              if keys.Some? then (if kid in keys.value then Key(keys.value[kid]) else Absent)
              else if result.LibraryError? then Raised
              else if Publishes(s, kid) then Key(NewestKey(s, kid))
              else if FreshAt(cfg, s, now) then Absent
              else Unavailable, now)
  {
    RunKeeps(cfg, events);
  }

  /** A key told from a set past its freshness: only while a refetch is held back, or when the one just made
      failed. */
  lemma {:induction false} StaleKeyIsHeldBack(cfg: Config, events: seq<Event>, t: Task)
    requires Sane(cfg) && events != [] && Run(cfg, events).Some?
    requires var s, before := Run(cfg, events).value, Run(cfg, events[..|events| - 1]).value;
             && t in s.tasks && s.tasks[t].Replied? && s.tasks[t].reply.Key?
             && (t in before.tasks ==> !before.tasks[t].Replied?)
    ensures var s, e := Run(cfg, events).value, events[|events| - 1];
            || FreshAt(cfg, s, s.now)
            || (e.step.Granted? && HeldBack(cfg, s, s.now))
            || (e.step.Returned? && e.step.t == t && ParsedResult(cfg, e.step.result).None?)
  {
    var e, before := events[|events| - 1], events[..|events| - 1];
    RunKeeps(cfg, events);
    match e.step {
      case Call(u, kid) => CallAnswersExactly(cfg, before, u, kid, e.at);
      case Granted(u) => LockAnswersExactly(cfg, before, u, e.at);
      case Returned(u, result) =>
      case Cancel(u) =>
    }
  }
}
