/** Every interleaving of `key_for` callers, with cancellation at each await. A step is one stretch of
    code between awaits; the lock admits one holder and promises no order among those waiting. */
module JwksRuns {
  import opened Wrappers
  import opened Throttle
  import opened KeySet
  import opened Jwks

  type Task = nat

  datatype Pc =
    | Waiting(kid: string)
    | Fetching(kid: string, previous: Option<Time>)
    | Replied(kid: string, reply: Reply, at: Time)
    | Gone

  datatype Fetched = Fetched(keys: Published, at: Time)

  /** `attempts` and `sets` record what happened: every fetch started, every set parsed. */
  datatype State = State(
    cache: Cache, lock: Option<Task>, tasks: map<Task, Pc>, now: Time,
    attempts: seq<Attempt>, sets: seq<Fetched>)

  datatype Label =
    | Call(t: Task, kid: string)
    | Granted(t: Task)
    | Returned(t: Task, result: FetchResult)
    | Cancel(t: Task)

  const START: State := State(EMPTY, None, map[], 0.0, [], [])

  predicate Enabled(s: State, l: Label, now: Time) {
    s.now <= now &&
    match l
    case Call(t, _) => t !in s.tasks
    case Granted(t) => s.lock == None && t in s.tasks && s.tasks[t].Waiting?
    case Returned(t, _) => t in s.tasks && s.tasks[t].Fetching?
    case Cancel(t) => t in s.tasks && (s.tasks[t].Waiting? || s.tasks[t].Fetching?)
  }

  function CallStep(cfg: Config, s: State, t: Task, kid: string, now: Time): State {
    var hit := FreshHit(cfg, s.cache, kid, now);
    s.(tasks := s.tasks[t := if hit.Some? then Replied(kid, Key(hit.value), now) else Waiting(kid)], now := now)
  }

  function GrantedStep(cfg: Config, s: State, t: Task, now: Time): State
    requires Enabled(s, Granted(t), now)
  {
    var kid := s.tasks[t].kid;
    match Enter(cfg, s.cache, kid, now)
    case Done(c, reply) => s.(cache := c, tasks := s.tasks[t := Replied(kid, reply, now)], now := now)
    case Fetch(c, previous) =>
      s.(cache := c, lock := Some(t), tasks := s.tasks[t := Fetching(kid, previous)], now := now,
         attempts := Begun(s.attempts, now))
  }

  function ReturnedStep(cfg: Config, s: State, t: Task, result: FetchResult, now: Time): State
    requires Enabled(s, Returned(t, result), now)
  {
    var kid := s.tasks[t].kid;
    var settled := Return(cfg, s.cache, kid, result, now);
    var keys := ParsedResult(cfg, result);
    s.(cache := settled.cache, lock := None, tasks := s.tasks[t := Replied(kid, settled.reply, now)], now := now,
       sets := if keys.Some? then s.sets + [Fetched(keys.value, now)] else s.sets)
  }

  function CancelStep(s: State, t: Task, now: Time): State
    requires Enabled(s, Cancel(t), now)
  {
    match s.tasks[t]
    case Waiting(_) => s.(tasks := s.tasks[t := Gone], now := now)
    case Fetching(_, previous) =>
      s.(cache := Abandon(s.cache, previous), lock := None, tasks := s.tasks[t := Gone], now := now,
         attempts := if s.attempts == [] then [] else Cancelled(s.attempts))
  }

  function Step(cfg: Config, s: State, l: Label, now: Time): State
    requires Enabled(s, l, now)
  {
    match l
    case Call(t, kid) => CallStep(cfg, s, t, kid, now)
    case Granted(t) => GrantedStep(cfg, s, t, now)
    case Returned(t, result) => ReturnedStep(cfg, s, t, result, now)
    case Cancel(t) => CancelStep(s, t, now)
  }

  datatype Event = Event(step: Label, at: Time)

  /** The state a run of events leads to, or nothing where one of them could not happen. */
  function Run(cfg: Config, events: seq<Event>): Option<State> {
    if events == [] then Some(START)
    else
      var last := events[|events| - 1];
      match Run(cfg, events[..|events| - 1])
      case None => None
      case Some(s) => if Enabled(s, last.step, last.at) then Some(Step(cfg, s, last.step, last.at)) else None
  }

  // ---- what every step keeps

  /** At most one fetch in flight, and it is the lock's holder. */
  ghost predicate LockInv(s: State) {
    && (s.lock.Some? ==> s.lock.value in s.tasks && s.tasks[s.lock.value].Fetching?)
    && (forall t :: t in s.tasks && s.tasks[t].Fetching? ==> s.lock == Some(t))
  }

  /** The set on hand is the newest one parsed, stamped when it was. */
  ghost predicate SetInv(cfg: Config, s: State) {
    && (s.sets == [] ==> s.cache.keys.None? && s.cache.fetchedAt.None?)
    && (s.sets != [] ==>
          var newest := s.sets[|s.sets| - 1];
          s.cache.keys == Some(newest.keys) && s.cache.fetchedAt == Some(newest.at) && newest.at <= s.now)
    && (forall i :: 0 <= i < |s.sets| ==> Trusted(s.sets[i].keys, cfg.algorithms))
  }

  /** A remembered miss is a `kid` the set on hand lacks, remembered while that set was fresh. */
  ghost predicate MissesFit(cfg: Config, c: Cache) {
    && c.missing.Valid() && c.missing.Len() <= MAX_REMEMBERED_MISSES
    && (forall kid :: kid in c.missing.items ==>
          && c.keys.Some? && kid !in c.keys.value && c.fetchedAt.Some?
          && c.missing.items[kid] - c.fetchedAt.value < cfg.cacheTtl)
  }

  /** What separates two fetches: on a clock that never runs back, a negative interval is no interval. */
  function Gap(cfg: Config): Time { if cfg.refetchInterval > 0.0 then cfg.refetchInterval else 0.0 }

  /** The stamp is the last fetch that counts; the one in flight remembers the stamp before it. */
  ghost predicate WindowInv(cfg: Config, s: State) {
    && Apart(Kept(s.attempts), Gap(cfg))
    && (s.cache.attemptedAt.Some? ==> s.cache.attemptedAt.value <= s.now)
    && s.cache.attemptedAt == LastKept(s.attempts)
    && (s.lock.Some? && s.lock.value in s.tasks && s.tasks[s.lock.value].Fetching? ==>
          && s.attempts != [] && !s.attempts[|s.attempts| - 1].cancelled
          && LastKept(s.attempts[..|s.attempts| - 1]) == s.tasks[s.lock.value].previous
          && (s.tasks[s.lock.value].previous.Some? ==> s.tasks[s.lock.value].previous.value <= s.now))
  }

  ghost predicate Inv(cfg: Config, s: State) {
    LockInv(s) && SetInv(cfg, s) && MissesFit(cfg, s.cache) && WindowInv(cfg, s)
  }

  ghost predicate Sane(cfg: Config) { cfg.cacheTtl > 0.0 }

  lemma {:induction false} EvictedFits(missing: Misses)
    requires missing.Valid()
    ensures Evicted(missing).Len() <= missing.Len()
    ensures forall kid :: kid in Evicted(missing).items ==>
      kid in missing.items && Evicted(missing).items[kid] == missing.items[kid]
    decreases missing.Len()
  {
    if missing.Len() >= MAX_REMEMBERED_MISSES { EvictedFits(missing.PopFirst()); }
  }

  lemma {:induction false} AnswerKeepsMisses(cfg: Config, c: Cache, kid: string, now: Time)
    requires MissesFit(cfg, c)
    ensures MissesFit(cfg, AnswerFrom(cfg, c, kid, now).cache)
  {
    EvictedFits(c.missing);
  }

  lemma {:induction false} RecallKeepsMisses(cfg: Config, c: Cache, kid: string, now: Time)
    requires MissesFit(cfg, c)
    ensures MissesFit(cfg, c.(missing := IsRemembered(cfg, c.missing, kid, now).missing))
  {
  }

  lemma {:induction false} EnterKeeps(cfg: Config, c: Cache, kid: string, now: Time)
    requires MissesFit(cfg, c)
    ensures var c' := Enter(cfg, c, kid, now).cache;
            MissesFit(cfg, c') && c'.keys == c.keys && c'.fetchedAt == c.fetchedAt
    ensures Enter(cfg, c, kid, now).Done? ==> Enter(cfg, c, kid, now).cache.attemptedAt == c.attemptedAt
  {
    RecallKeepsMisses(cfg, c, kid, now);
    AnswerKeepsMisses(cfg, c.(missing := IsRemembered(cfg, c.missing, kid, now).missing), kid, now);
  }

  lemma {:induction false} ReturnKeeps(cfg: Config, c: Cache, kid: string, result: FetchResult, now: Time)
    requires MissesFit(cfg, c)
    ensures var c' := Return(cfg, c, kid, result, now).cache; var keys := ParsedResult(cfg, result);
            && MissesFit(cfg, c') && c'.attemptedAt == c.attemptedAt
            && (if keys.Some? then c'.keys == keys && c'.fetchedAt == Some(now)
                else c'.keys == c.keys && c'.fetchedAt == c.fetchedAt)
    ensures ParsedResult(cfg, result).Some? ==> Trusted(ParsedResult(cfg, result).value, cfg.algorithms)
  {
    var keys := ParsedResult(cfg, result);
    if keys.Some? {
      PublishedAreTrusted(result.answer.document.entries, cfg.algorithms);
      AnswerKeepsMisses(cfg, Installed(c, keys.value, now), kid, now);
    } else {
      AnswerKeepsMisses(cfg, c, kid, now);
    }
  }

  lemma {:induction false} FetchStartKeeps(cfg: Config, s: State, t: Task, now: Time)
    requires Sane(cfg) && Inv(cfg, s) && Enabled(s, Granted(t), now)
    requires Enter(cfg, s.cache, s.tasks[t].kid, now).Fetch?
    ensures Inv(cfg, GrantedStep(cfg, s, t, now))
  {
    FetchStarts(cfg, s, t, now);
    StartedKeeps(cfg, s, GrantedStep(cfg, s, t, now), t, s.tasks[t].kid, now);
  }

  ghost predicate Starts(s: State, s': State, t: Task, kid: string, now: Time) {
    && s'.cache == s.cache.(attemptedAt := Some(now)) && s'.lock == Some(t) && s'.now == now && s'.sets == s.sets
    && s'.tasks == s.tasks[t := Fetching(kid, s.cache.attemptedAt)] && s'.attempts == Begun(s.attempts, now)
  }

  lemma {:induction false} FetchStarts(cfg: Config, s: State, t: Task, now: Time)
    requires Enabled(s, Granted(t), now) && Enter(cfg, s.cache, s.tasks[t].kid, now).Fetch?
    ensures Starts(s, GrantedStep(cfg, s, t, now), t, s.tasks[t].kid, now) && MayFetch(cfg, s.cache, now)
  {
  }

  lemma {:induction false} StartedKeeps(cfg: Config, s: State, s': State, t: Task, kid: string, now: Time)
    requires Inv(cfg, s) && s.lock == None && s.now <= now && Starts(s, s', t, kid, now) && MayFetch(cfg, s.cache, now)
    ensures Inv(cfg, s')
  {
    assert LockInv(s');
    assert SetInv(cfg, s');
    FetchStartKeepsWindow(cfg, s, s', t, now);
  }

  lemma {:induction false} FetchStartKeepsWindow(cfg: Config, s: State, s': State, t: Task, now: Time)
    requires WindowInv(cfg, s) && MayFetch(cfg, s.cache, now)
    requires s'.attempts == Begun(s.attempts, now) && s'.cache.attemptedAt == Some(now)
    requires s.now <= now == s'.now
    requires s'.lock == Some(t) && t in s'.tasks && s'.tasks[t].Fetching? && s'.tasks[t].previous == s.cache.attemptedAt
    ensures WindowInv(cfg, s')
  {
    BeginKeepsApart(s.attempts, Gap(cfg), now);
    assert s'.attempts[..|s'.attempts| - 1] == s.attempts;
  }

  lemma {:induction false} GrantedReplyKeeps(cfg: Config, s: State, t: Task, now: Time)
    requires Sane(cfg) && Inv(cfg, s) && Enabled(s, Granted(t), now)
    requires Enter(cfg, s.cache, s.tasks[t].kid, now).Done?
    ensures Inv(cfg, GrantedStep(cfg, s, t, now))
  {
    var s' := GrantedStep(cfg, s, t, now);
    EnterKeeps(cfg, s.cache, s.tasks[t].kid, now);
    assert s'.cache == Enter(cfg, s.cache, s.tasks[t].kid, now).cache;
    assert LockInv(s') && WindowInv(cfg, s');
  }

  lemma {:induction false} ReturnedKeeps(cfg: Config, s: State, t: Task, result: FetchResult, now: Time)
    requires Sane(cfg) && Inv(cfg, s) && Enabled(s, Returned(t, result), now)
    ensures Inv(cfg, ReturnedStep(cfg, s, t, result, now))
  {
    var s' := ReturnedStep(cfg, s, t, result, now);
    ReturnKeeps(cfg, s.cache, s.tasks[t].kid, result, now);
    assert s'.cache == Return(cfg, s.cache, s.tasks[t].kid, result, now).cache;
    assert LockInv(s') && WindowInv(cfg, s');
    assert SetInv(cfg, s') by { NewestIsOnHand(cfg, s, s', ParsedResult(cfg, result)); }
  }

  lemma {:induction false} NewestIsOnHand(cfg: Config, s: State, s': State, keys: Option<Published>)
    requires SetInv(cfg, s) && s.now <= s'.now
    requires keys.Some? ==> Trusted(keys.value, cfg.algorithms)
    requires s'.sets == if keys.Some? then s.sets + [Fetched(keys.value, s'.now)] else s.sets
    requires s'.cache.keys == if keys.Some? then keys else s.cache.keys
    requires s'.cache.fetchedAt == if keys.Some? then Some(s'.now) else s.cache.fetchedAt
    ensures SetInv(cfg, s')
  {
  }

  lemma {:induction false} CancelKeeps(cfg: Config, s: State, t: Task, now: Time)
    requires Sane(cfg) && Inv(cfg, s) && Enabled(s, Cancel(t), now)
    ensures Inv(cfg, CancelStep(s, t, now))
  {
    if s.tasks[t].Fetching? {
      CancelRestores(s.attempts);
      KeptPrefixApart(s.attempts, Gap(cfg));
    }
  }

  /** Every reachable state satisfies the invariant. */
  lemma {:induction false} RunKeeps(cfg: Config, events: seq<Event>)
    requires Sane(cfg)
    ensures Run(cfg, events).Some? ==> Inv(cfg, Run(cfg, events).value)
  {
    if events != [] && Run(cfg, events).Some? {
      var n, last := |events| - 1, events[|events| - 1];
      RunKeeps(cfg, events[..n]);
      var s := Run(cfg, events[..n]).value;
      match last.step {
        case Call(t, kid) =>
        case Granted(t) =>
          if Enter(cfg, s.cache, s.tasks[t].kid, last.at).Fetch? {
            FetchStartKeeps(cfg, s, t, last.at);
          } else {
            GrantedReplyKeeps(cfg, s, t, last.at);
          }
        case Returned(t, result) => ReturnedKeeps(cfg, s, t, result, last.at);
        case Cancel(t) => CancelKeeps(cfg, s, t, last.at);
      }
    }
  }

  // ---- what callers are told

  /** What a reply given in state `s` claims about the newest set parsed so far. */
  ghost predicate Justified(cfg: Config, s: State, kid: string, reply: Reply) {
    match reply
    case Key(jwk) =>
      && s.sets != [] && kid in s.sets[|s.sets| - 1].keys && s.sets[|s.sets| - 1].keys[kid] == jwk
      && jwk.kid == kid && jwk.algorithm in cfg.algorithms && jwk.algorithm in LOADERS
    case Absent =>
      && s.sets != [] && kid !in s.sets[|s.sets| - 1].keys
      && s.now - s.sets[|s.sets| - 1].at < cfg.cacheTtl + if cfg.negativeTtl > 0.0 then cfg.negativeTtl else 0.0
    case Unavailable =>
      s.sets == [] || (kid !in s.sets[|s.sets| - 1].keys && s.now - s.sets[|s.sets| - 1].at >= cfg.cacheTtl)
    case Raised => true
  }

  lemma {:induction false} EnterJustified(cfg: Config, s: State, t: Task, now: Time)
    requires Sane(cfg) && Inv(cfg, s) && Enabled(s, Granted(t), now)
    ensures var e := Enter(cfg, s.cache, s.tasks[t].kid, now);
            e.Done? ==> Justified(cfg, GrantedStep(cfg, s, t, now), s.tasks[t].kid, e.reply)
  {
    AbsentExactly(cfg, s.cache, s.tasks[t].kid, now);
  }

  lemma {:induction false} ReturnJustified(cfg: Config, s: State, t: Task, result: FetchResult, now: Time)
    requires Sane(cfg) && Inv(cfg, s) && Enabled(s, Returned(t, result), now)
    ensures Justified(cfg, ReturnedStep(cfg, s, t, result, now), s.tasks[t].kid,
                      Return(cfg, s.cache, s.tasks[t].kid, result, now).reply)
  {
    ReturnedKeeps(cfg, s, t, result, now);
  }

  /** In every interleaving, every reply is justified when it is given: a key only if the newest set
      publishes it under that `kid` with an allowlisted algorithm, an absence only for a `kid` that set
      lacks and less than `cacheTtl + negativeTtl` after it was fetched, and unavailability only with no
      set or a stale one that lacks the `kid`. */
  lemma {:induction false} EveryReplyIsJustified(cfg: Config, events: seq<Event>, t: Task)
    requires Sane(cfg) && events != [] && Run(cfg, events).Some?
    requires t in Run(cfg, events).value.tasks && Run(cfg, events).value.tasks[t].Replied?
    requires var before := Run(cfg, events[..|events| - 1]).value;
             t in before.tasks ==> !before.tasks[t].Replied?
    ensures var s := Run(cfg, events).value; Justified(cfg, s, s.tasks[t].kid, s.tasks[t].reply)
    ensures var s := Run(cfg, events).value; s.tasks[t].at == s.now
  {
    var last := events[|events| - 1];
    var before := Run(cfg, events[..|events| - 1]).value;
    RunKeeps(cfg, events[..|events| - 1]);
    match last.step {
      case Call(u, kid) =>
      case Granted(u) => EnterJustified(cfg, before, u, last.at);
      case Returned(u, result) => ReturnJustified(cfg, before, u, result, last.at);
      case Cancel(u) =>
    }
  }

  /** The remembered misses never outgrow their bound and never hide a published key. */
  lemma {:induction false} MissesAreBoundedAndHonest(cfg: Config, events: seq<Event>)
    requires Sane(cfg) && Run(cfg, events).Some?
    ensures var s := Run(cfg, events).value;
            && s.cache.missing.Len() <= MAX_REMEMBERED_MISSES
            && forall kid :: kid in s.cache.missing.items ==> s.sets != [] && kid !in s.sets[|s.sets| - 1].keys
  {
    RunKeeps(cfg, events);
  }

  /** Whatever `kid`s arrive, fetches that were not cancelled start a window apart, so any span of `span`
      seconds holds at most `floor(span / refetchInterval) + 1` of them. */
  lemma {:induction false} FetchesAreSpaced(cfg: Config, events: seq<Event>, from: Time, span: Time)
    requires Sane(cfg) && Run(cfg, events).Some?
    ensures var starts := Kept(Run(cfg, events).value.attempts);
            && Apart(starts, cfg.refetchInterval)
            && (cfg.refetchInterval > 0.0 && span >= 0.0 ==>
                  |Within(starts, from, span)| <= (span / cfg.refetchInterval).Floor + 1)
  {
    RunKeeps(cfg, events);
    if cfg.refetchInterval > 0.0 && span >= 0.0 {
      AtMostPerSpan(Kept(Run(cfg, events).value.attempts), cfg.refetchInterval, from, span);
    }
  }

  /** A cancelled fetch leaves the window exactly as if it had never started, whatever ran meanwhile. */
  lemma {:induction false} CancelledFetchRestoresWindow(cfg: Config, events: seq<Event>, t: Task, now: Time)
    requires Sane(cfg) && Run(cfg, events).Some?
    requires Enabled(Run(cfg, events).value, Cancel(t), now) && Run(cfg, events).value.tasks[t].Fetching?
    ensures var s := Run(cfg, events).value; var s' := CancelStep(s, t, now);
            && s.attempts != [] && s'.cache.attemptedAt == LastKept(s.attempts[..|s.attempts| - 1])
            && Kept(s'.attempts) == Kept(s.attempts[..|s.attempts| - 1])
            && s'.cache == s.cache.(attemptedAt := s'.cache.attemptedAt)
  {
    RunKeeps(cfg, events);
    CancelRestores(Run(cfg, events).value.attempts);
  }
}
