/** The negative cache in every interleaving, hits included: have each call it answered asked upstream instead,
    be told `null`, and the run is one of the verifier without it, every task with the same outcome. */
module RemoteReplay {
  import opened Wrappers
  import opened OrderedDict
  import opened Throttle
  import opened RemoteResponse
  import opened RemoteVerifier
  import opened RemoteRuns
  import opened RemoteCalls
  import opened RemoteTransparency
  import opened RemoteErasure
  import LatchedSends
  import Cache = NegativeCache

  /** The call, the slot and the answer a hit stands for. */
  function AskInstead(e: Event, nothing: Response, wall: real): seq<Event> {
    [e, Event(SlotGranted(e.step.t), e.at), Event(FetchAnswered(e.step.t, Answered(nothing), wall), e.at)]
  }

  /** The run with each call the cache answered made in full. */
  function Asked(cfg: Config, events: seq<Event>, nothing: Response, wall: real): seq<Event>
    requires cfg.limits.max >= 1 && Run(cfg, events).Some?
  {
    if events == [] then []
    else
      var before, last := events[..|events| - 1], events[|events| - 1];
      Asked(cfg, before, nothing, wall)
        + if IsHit(cfg, Run(cfg, before).value.gate, last) then AskInstead(last, nothing, wall) else [last]
  }

  ghost predicate NeverLimited(events: seq<Event>) {
    forall i :: 0 <= i < |events| ==> !LatchedSends.IsLimited(events[i].step)
  }

  /** A slot is free whenever the cache answers. */
  predicate RoomAtHits(cfg: Config, events: seq<Event>)
    requires cfg.limits.max >= 1 && Run(cfg, events).Some?
  {
    events == [] ||
    var before, last := events[..|events| - 1], events[|events| - 1];
    && RoomAtHits(cfg, before)
    && (IsHit(cfg, Run(cfg, before).value.gate, last) ==> |Run(cfg, before).value.borrowers| < cfg.concurrency)
  }

  /** The same verifier but for its cache, which the second has none of, and for what has been sent. */
  ghost predicate Twins(s: State, s0: State) {
    s0 == s.(gate := s.gate.(cache := Empty()), log := s0.log) && s.gate.blockedUntil == None
  }

  /** In every interleaving with failures, timeouts and cancellations, against an upstream that never answers
      429: ask it wherever the cache answered instead, have it say `null` again, and what results is a run of the
      uncached verifier in which every task, hits included, stands where it stood. */
  lemma {:induction false} AskingInsteadIsARun(cfg: Config, events: seq<Event>, nothing: Response, wall: real)
      returns (s0: State)
    requires cfg.limits.max >= 1 && Run(cfg, events).Some? && IsCacheableNull(nothing)
    requires NeverLimited(events) && RoomAtHits(cfg, events)
    ensures Run(Uncached(cfg), Asked(cfg, events, nothing, wall)) == Some(s0)
    ensures Twins(Run(cfg, events).value, s0)
  {
    s0 := START;
    if events != [] {
      var before, last := events[..|events| - 1], events[|events| - 1];
      s0 := AskingInsteadIsARun(cfg, before, nothing, wall);
      HitMeansReady(cfg, before, Run(cfg, before).value, last);
      s0 := NextTwins(cfg, Run(cfg, before).value, s0, Asked(cfg, before, nothing, wall), last, nothing, wall);
    }
  }

  lemma {:induction false} NextTwins(
      cfg: Config, s: State, s0: State, rest: seq<Event>, e: Event, nothing: Response, wall: real)
      returns (next: State)
    requires cfg.limits.max >= 1 && Enabled(cfg, s, e.step, e.at) && IsCacheableNull(nothing)
    requires Run(Uncached(cfg), rest) == Some(s0) && Twins(s, s0) && !LatchedSends.IsLimited(e.step)
    requires IsHit(cfg, s.gate, e) ==>
      s.gate.probedOk && |s.borrowers| < cfg.concurrency && e.step.t !in s.borrowers
    ensures Run(Uncached(cfg), rest + if IsHit(cfg, s.gate, e) then AskInstead(e, nothing, wall) else [e]) == Some(next)
    ensures Twins(Apply(cfg, s, e.step, e.at), next)
  {
    if IsHit(cfg, s.gate, e) {
      next := HitTwins(cfg, s, s0, rest, e, nothing, wall);
    } else {
      StepTwins(cfg, s, s0, e);
      RunOneMore(Uncached(cfg), rest, s0, e);
      next := Apply(Uncached(cfg), s0, e.step, e.at);
    }
  }

  // ---- a hit

  /** The cache answers only once the probe has passed, and a caller it answers has no slot. */
  lemma {:induction false} HitMeansReady(cfg: Config, events: seq<Event>, s: State, e: Event)
    requires cfg.limits.max >= 1 && Run(cfg, events) == Some(s) && Enabled(cfg, s, e.step, e.at)
    ensures IsHit(cfg, s.gate, e) ==> s.gate.probedOk && e.step.t !in s.borrowers
  {
    if IsHit(cfg, s.gate, e) {
      HeldMeansReady(cfg, events, s, cfg.digest(Precheck(cfg, e.step.req).value.material));
      SlotsAreConserved(cfg, events);
    }
  }

  lemma {:induction false} HeldMeansReady(cfg: Config, events: seq<Event>, s: State, key: Cache.Key)
    requires cfg.limits.max >= 1 && Run(cfg, events) == Some(s) && key in s.gate.cache.items
    ensures s.gate.probedOk
  {
    CachedWasAnswered(cfg, events);
    var at := s.gate.cache.items[key];
    var j: nat :| AnsweredNullAt(cfg, events, j, key, at);
    RunKeeps(cfg, events[..j]);
    VerdictsArePermanent(cfg, events, j);
  }

  lemma {:induction false} HitTwins(
      cfg: Config, s: State, s0: State, rest: seq<Event>, e: Event, nothing: Response, wall: real)
      returns (next: State)
    requires cfg.limits.max >= 1 && Enabled(cfg, s, e.step, e.at) && IsCacheableNull(nothing)
    requires Run(Uncached(cfg), rest) == Some(s0) && Twins(s, s0) && IsHit(cfg, s.gate, e)
    requires s.gate.probedOk && |s.borrowers| < cfg.concurrency && e.step.t !in s.borrowers
    ensures Run(Uncached(cfg), rest + AskInstead(e, nothing, wall)) == Some(next)
    ensures Twins(Apply(cfg, s, e.step, e.at), next)
  {
    var t, a := e.step.t, Precheck(cfg, e.step.req).value;
    var waiting := s0.(tasks := s0.tasks[t := AwaitSlot(a)], now := e.at);
    CallWaits(cfg, s0, e, a);
    next := AskRuns(Uncached(cfg), s0, waiting, rest, e, a, nothing, wall);
    HitLeaves(cfg, s, e);
    NullSettles(cfg, waiting, t, a, nothing, e.at, wall);
    SameEnd(s, s0, next, t, AwaitSlot(a), Finished(Refused(NullOutcome(a.verified))), e.at);
  }

  lemma {:induction false} SameEnd(s: State, s0: State, next: State, t: Task, mid: Pc, end: Pc, at: Time)
    requires Twins(s, s0) && next == s0.(tasks := s0.tasks[t := mid][t := end], now := at, log := next.log)
    ensures Twins(s.(tasks := s.tasks[t := end], now := at), next)
  {
    assert s0.tasks[t := mid][t := end] == s0.tasks[t := end];
  }

  lemma {:induction false} AskRuns(
      cfg: Config, s: State, waiting: State, rest: seq<Event>, e: Event, a: Admitted, nothing: Response, wall: real)
      returns (next: State)
    requires cfg.limits.max >= 1 && Run(cfg, rest) == Some(s) && s.now <= e.at && e.step.CallVerify?
    requires e.step.t !in s.tasks && |s.borrowers| < cfg.concurrency
    requires waiting == s.(tasks := s.tasks[e.step.t := AwaitSlot(a)], now := e.at)
    requires VerifyStep(cfg, s, e.step.t, e.step.req, e.at) == waiting
    ensures Run(cfg, rest + AskInstead(e, nothing, wall)) == Some(next)
    ensures next == FetchStep(cfg, SlotStep(waiting, e.step.t, e.at), e.step.t, Answered(nothing), e.at, wall)
  {
    var slot, answer := AskInstead(e, nothing, wall)[1], AskInstead(e, nothing, wall)[2];
    var flying := SlotStep(waiting, e.step.t, e.at);
    RunOneMore(cfg, rest, s, e);
    RunOneMore(cfg, rest + [e], waiting, slot);
    RunOneMore(cfg, rest + [e] + [slot], flying, answer);
    next := FetchStep(cfg, flying, e.step.t, Answered(nothing), e.at, wall);
    assert rest + AskInstead(e, nothing, wall) == rest + [e] + [slot] + [answer];
  }

  /** Without a cache the call goes through to the limiter. */
  lemma {:induction false} CallWaits(cfg: Config, s0: State, e: Event, a: Admitted)
    requires e.step.CallVerify? && Precheck(cfg, e.step.req) == Ok(a)
    requires s0.gate.probedOk && s0.gate.blockedUntil == None
    ensures VerifyStep(Uncached(cfg), s0, e.step.t, e.step.req, e.at)
         == s0.(tasks := s0.tasks[e.step.t := AwaitSlot(a)], now := e.at)
  {
    LocalChecksIgnoreTtl(cfg, e.step.req);
    MissPassesGates(Uncached(cfg), s0.gate, a, e.at);
  }

  /** And its answer, `null`, is the refusal the cache gave. */
  lemma {:induction false} NullSettles(
      cfg: Config, s: State, t: Task, a: Admitted, nothing: Response, at: Time, wall: real)
    requires cfg.limits.max >= 1 && t in s.tasks && s.tasks[t] == AwaitSlot(a) && t !in s.borrowers && s.now == at
    requires IsCacheableNull(nothing) && s.gate.blockedUntil == None
    ensures var s' := FetchStep(Uncached(cfg), SlotStep(s, t, at), t, Answered(nothing), at, wall);
            s' == s.(tasks := s.tasks[t := Finished(Refused(NullOutcome(a.verified)))], log := s'.log)
  {
    CacheableExactlyWhenNullOutcome(nothing, a.verified);
    assert s.borrowers + {t} - {t} == s.borrowers;
  }

  // ---- any other step

  lemma {:induction false} StepTwins(cfg: Config, s: State, s0: State, e: Event)
    requires cfg.limits.max >= 1 && Enabled(cfg, s, e.step, e.at) && Twins(s, s0)
    requires !IsHit(cfg, s.gate, e) && !LatchedSends.IsLimited(e.step)
    ensures Enabled(Uncached(cfg), s0, e.step, e.at)
    ensures Twins(Apply(cfg, s, e.step, e.at), Apply(Uncached(cfg), s0, e.step, e.at))
  {
    var plain := s0.(log := s.log);
    SameStep(cfg, s, plain, e);
    LogIsOnlyWritten(Uncached(cfg), s0, s.log, e.step, e.at);
    LatchedSends.StepMoves(cfg, s, e);
  }

  lemma {:induction false} LogIsOnlyWritten(cfg: Config, s: State, log: seq<Happening>, step: Step, now: Time)
    requires cfg.limits.max >= 1 && Enabled(cfg, s, step, now)
    ensures Enabled(cfg, s.(log := log), step, now)
    ensures var s', other := Apply(cfg, s, step, now), Apply(cfg, s.(log := log), step, now);
            s' == other.(log := s'.log)
  {
    match step {
      case CallVerify(t, req) =>
      case LockGranted(t) =>
      case ProbeAnswered(t, result) =>
      case FetchAnswered(t, result, wall) =>
      case _ =>
    }
  }
}
