/** The negative cache in every interleaving: erase the calls it answered, and what is left is a run of the
    verifier without it. */
module RemoteErasure {
  import opened Wrappers
  import opened OrderedDict
  import opened Throttle
  import opened RemoteResponse
  import opened RemoteVerifier
  import opened RemoteRuns
  import opened RemoteCalls
  import opened RemoteTransparency
  import Cache = NegativeCache

  /** The event is a call that the negative cache answers. */
  predicate IsHit(cfg: Config, g: Gate, e: Event) {
    && e.step.CallVerify? && Precheck(cfg, e.step.req).Ok?
    && Cache.Holds(cfg.limits, g.cache, cfg.digest(Precheck(cfg, e.step.req).value.material), e.at).held
  }

  /** The run without the calls the cache answered. */
  function Erased(cfg: Config, events: seq<Event>): seq<Event>
    requires cfg.limits.max >= 1 && Run(cfg, events).Some?
  {
    if events == [] then []
    else
      var before, last := events[..|events| - 1], events[|events| - 1];
      Erased(cfg, before) + if IsHit(cfg, Run(cfg, before).value.gate, last) then [] else [last]
  }

  /** The tasks those calls were made in. */
  function HitTasks(cfg: Config, events: seq<Event>): set<Task>
    requires cfg.limits.max >= 1 && Run(cfg, events).Some?
  {
    if events == [] then {}
    else
      var before, last := events[..|events| - 1], events[|events| - 1];
      HitTasks(cfg, before) + if IsHit(cfg, Run(cfg, before).value.gate, last) then {last.step.t} else {}
  }

  /** The same verifier but for its cache, which the second has none of, and for the tasks the cache answered,
      which the second never saw and which are over in the first. */
  ghost predicate Mirrors(s: State, s0: State, hits: set<Task>) {
    && s0.gate == s.gate.(cache := Empty())
    && s0.lock == s.lock && s0.borrowers == s.borrowers && s0.attempts == s.attempts && s0.log == s.log
    && s0.now <= s.now && s0.tasks == s.tasks - hits
    && (forall t :: t in hits ==> t in s.tasks && s.tasks[t].Finished? && s.tasks[t].outcome.Refused?)
  }

  /** In every interleaving with failures, timeouts and cancellations, the calls the cache did not answer make,
      by themselves, a run of the uncached verifier: every task of theirs fares the same there, and so do the
      probe, the slots, the cookies sent, and every field but the cache. */
  lemma {:induction false} ErasingHitsLeavesARun(cfg: Config, events: seq<Event>) returns (s0: State)
    requires cfg.limits.max >= 1 && Run(cfg, events).Some?
    ensures Run(Uncached(cfg), Erased(cfg, events)) == Some(s0)
    ensures Mirrors(Run(cfg, events).value, s0, HitTasks(cfg, events))
  {
    s0 := START;
    if events != [] {
      var before, last := events[..|events| - 1], events[|events| - 1];
      s0 := ErasingHitsLeavesARun(cfg, before);
      s0 := NextMirrors(cfg, Run(cfg, before).value, s0, Erased(cfg, before), HitTasks(cfg, before), last);
    }
  }

  lemma {:induction false} NextMirrors(cfg: Config, s: State, s0: State, rest: seq<Event>, hits: set<Task>, e: Event)
      returns (next: State)
    requires cfg.limits.max >= 1 && Enabled(cfg, s, e.step, e.at)
    requires Run(Uncached(cfg), rest) == Some(s0) && Mirrors(s, s0, hits)
    ensures var hit := IsHit(cfg, s.gate, e);
            && Run(Uncached(cfg), rest + if hit then [] else [e]) == Some(next)
            && Mirrors(Apply(cfg, s, e.step, e.at), next, hits + if hit then {e.step.t} else {})
  {
    if IsHit(cfg, s.gate, e) {
      HitMirrors(cfg, s, s0, hits, e);
      assert rest + [] == rest;
      next := s0;
    } else {
      StepMirrors(cfg, s, s0, hits, e);
      RunOneMore(Uncached(cfg), rest, s0, e);
      assert hits + {} == hits;
      next := Apply(Uncached(cfg), s0, e.step, e.at);
    }
  }

  lemma {:induction false} RunOneMore(cfg: Config, events: seq<Event>, s: State, e: Event)
    requires cfg.limits.max >= 1 && Run(cfg, events) == Some(s) && Enabled(cfg, s, e.step, e.at)
    ensures Run(cfg, events + [e]) == Some(Apply(cfg, s, e.step, e.at))
  {
    assert (events + [e])[..|events|] == events;
  }

  // ---- one event

  lemma {:induction false} HitMirrors(cfg: Config, s: State, s0: State, hits: set<Task>, e: Event)
    requires cfg.limits.max >= 1 && Enabled(cfg, s, e.step, e.at) && IsHit(cfg, s.gate, e) && Mirrors(s, s0, hits)
    ensures Mirrors(Apply(cfg, s, e.step, e.at), s0, hits + {e.step.t})
  {
    var s', t := Apply(cfg, s, e.step, e.at), e.step.t;
    HitLeaves(cfg, s, e);
    assert s'.tasks - (hits + {t}) == s.tasks - hits;
  }

  lemma {:induction false} HitLeaves(cfg: Config, s: State, e: Event)
    requires cfg.limits.max >= 1 && Enabled(cfg, s, e.step, e.at) && IsHit(cfg, s.gate, e)
    ensures var s' := Apply(cfg, s, e.step, e.at);
            s' == s.(now := e.at, tasks := s.tasks[e.step.t :=
              Finished(Refused(NullOutcome(Precheck(cfg, e.step.req).value.verified)))])
  {
  }

  lemma {:induction false} StepMirrors(cfg: Config, s: State, s0: State, hits: set<Task>, e: Event)
    requires cfg.limits.max >= 1 && Enabled(cfg, s, e.step, e.at) && !IsHit(cfg, s.gate, e) && Mirrors(s, s0, hits)
    ensures Enabled(Uncached(cfg), s0, e.step, e.at)
    ensures Mirrors(Apply(cfg, s, e.step, e.at), Apply(Uncached(cfg), s0, e.step, e.at), hits)
  {
    StepIsEnabled(cfg, s, s0, hits, e);
    SameStep(cfg, s, s0, e);
    var s', t := Apply(cfg, s, e.step, e.at), e.step.t;
    assert s'.tasks - hits == (s.tasks - hits)[t := s'.tasks[t]];
  }

  /** A step of the first that no erased task takes is open to the second. */
  lemma {:induction false} StepIsEnabled(cfg: Config, s: State, s0: State, hits: set<Task>, e: Event)
    requires Enabled(cfg, s, e.step, e.at) && Mirrors(s, s0, hits)
    ensures Enabled(Uncached(cfg), s0, e.step, e.at) && e.step.t !in hits
    ensures e.step.t in s.tasks ==> s0.tasks[e.step.t] == s.tasks[e.step.t]
  {
  }

  /** Alike in everything a step of `t` looks at. */
  ghost predicate SameFor(s: State, s0: State, t: Task) {
    && s0.gate == s.gate.(cache := Empty()) && s0.lock == s.lock && s0.borrowers == s.borrowers
    && s0.attempts == s.attempts && s0.log == s.log
    && (t in s.tasks ==> t in s0.tasks && s0.tasks[t] == s.tasks[t])
  }

  /** The two verifiers take it alike. */
  lemma {:induction false} SameStep(cfg: Config, s: State, s0: State, e: Event)
    requires cfg.limits.max >= 1 && Enabled(cfg, s, e.step, e.at) && !IsHit(cfg, s.gate, e)
    requires Enabled(Uncached(cfg), s0, e.step, e.at) && SameFor(s, s0, e.step.t)
    ensures var s', s0' := Apply(cfg, s, e.step, e.at), Apply(Uncached(cfg), s0, e.step, e.at);
            SameFor(s', s0', e.step.t) && s0'.now == s'.now == e.at
  {
    match e.step {
      case CallVerify(t, req) => SameVerify(cfg, s, s0, e);
      case CallPrepare(t) =>
      case LockGranted(t) => SameLock(s, s0, t, e.at);
      case ProbeAnswered(t, result) => SameProbe(cfg, s, s0, t, result, e.at);
      case SlotGranted(t) =>
      case SlotTimedOut(t) =>
      case FetchAnswered(t, result, wall) => SameFetch(cfg, s, s0, t, result, e.at, wall);
      case Cancel(t) => SameCancel(s, s0, t, e.at);
    }
  }

  lemma {:induction false} SameVerify(cfg: Config, s: State, s0: State, e: Event)
    requires e.step.CallVerify? && !IsHit(cfg, s.gate, e) && SameFor(s, s0, e.step.t)
    ensures var s', s0' := VerifyStep(cfg, s, e.step.t, e.step.req, e.at),
                           VerifyStep(Uncached(cfg), s0, e.step.t, e.step.req, e.at);
            SameFor(s', s0', e.step.t) && s0'.now == s'.now == e.at
  {
    SameBegin(cfg, s.gate, s0.gate, e.step.req, e.at);
  }

  lemma {:induction false} SameLock(s: State, s0: State, t: Task, now: Time)
    requires t in s.tasks && s.tasks[t].AwaitLock? && SameFor(s, s0, t)
    ensures SameFor(LockStep(s, t, now), LockStep(s0, t, now), t)
            && LockStep(s0, t, now).now == LockStep(s, t, now).now == now
  {
  }

  lemma {:induction false} SameProbe(cfg: Config, s: State, s0: State, t: Task, result: Transported, now: Time)
    requires t in s.tasks && Probing(s.tasks[t]) && SameFor(s, s0, t)
    ensures var s', s0' := ProbeStep(cfg, s, t, result, now), ProbeStep(Uncached(cfg), s0, t, result, now);
            SameFor(s', s0', t) && s0'.now == s'.now == now
  {
    assert ProbeVerdict(Uncached(cfg), s0.tasks[t], result) == ProbeVerdict(cfg, s.tasks[t], result);
    SameAfterVerdict(s, s0, t, ProbeVerdict(cfg, s.tasks[t], result), now);
  }

  lemma {:induction false} SameAfterVerdict(s: State, s0: State, t: Task, verdict: Verdict, now: Time)
    requires t in s.tasks && Probing(s.tasks[t]) && SameFor(s, s0, t)
    ensures SameFor(AfterVerdict(s, t, verdict, now), AfterVerdict(s0, t, verdict, now), t)
    ensures AfterVerdict(s0, t, verdict, now).now == AfterVerdict(s, t, verdict, now).now == now
  {
  }

  lemma {:induction false} SameFetch(
      cfg: Config, s: State, s0: State, t: Task, result: Transported, now: Time, wall: real)
    requires cfg.limits.max >= 1 && t in s.tasks && s.tasks[t].InFlight? && SameFor(s, s0, t)
    ensures var s', s0' := FetchStep(cfg, s, t, result, now, wall), FetchStep(Uncached(cfg), s0, t, result, now, wall);
            SameFor(s', s0', t) && s0'.now == s'.now == now
  {
    SameSettle(cfg, s.gate, s0.gate, s.tasks[t].admitted, result, now, wall);
  }

  lemma {:induction false} SameCancel(s: State, s0: State, t: Task, now: Time)
    requires t in s.tasks && SameFor(s, s0, t)
    ensures SameFor(CancelStep(s, t, now), CancelStep(s0, t, now), t)
    ensures CancelStep(s0, t, now).now == CancelStep(s, t, now).now == now
  {
  }

  lemma {:induction false} SameBegin(cfg: Config, g: Gate, g0: Gate, req: Request, now: Time)
    requires g0 == g.(cache := Empty())
    requires var checked := Precheck(cfg, req);
             checked.Ok? ==> !Cache.Holds(cfg.limits, g.cache, cfg.digest(checked.value.material), now).held
    ensures var b, b0 := Begin(cfg, g, req, now), Begin(Uncached(cfg), g0, req, now);
            b0.begun == b.begun && b0.gate == b.gate.(cache := Empty())
  {
    LocalChecksIgnoreTtl(cfg, req);
    var checked := Precheck(cfg, req);
    if checked.Ok? { SameGates(cfg, g, g0, checked.value, now); }
  }

  lemma {:induction false} SameGates(cfg: Config, g: Gate, g0: Gate, a: Admitted, now: Time)
    requires g0 == g.(cache := Empty()) && !Cache.Holds(cfg.limits, g.cache, cfg.digest(a.material), now).held
    ensures var b, b0 := Gates(cfg, g, a, now), Gates(Uncached(cfg), g0, a, now);
            b0.begun == b.begun && b0.gate == b.gate.(cache := Empty())
  {
  }

  lemma {:induction false} SameSettle(
      cfg: Config, g: Gate, g0: Gate, a: Admitted, result: Transported, now: Time, wall: real)
    requires cfg.limits.max >= 1 && g0 == g.(cache := Empty())
    ensures var f, f0 := Settle(cfg, g, a, result, now, wall), Settle(Uncached(cfg), g0, a, result, now, wall);
            f0.outcome == f.outcome && f0.gate == f.gate.(cache := Empty())
  {
  }

  // ---- what an erased call was told

  /** And each erased call was told what upstream had answered about that digest less than the TTL before, in
      the words any later `null` about it would have come out in. */
  lemma {:induction false} HitSaysWhatUpstreamSaid(cfg: Config, events: seq<Event>, i: nat, later: Response, wall: real)
      returns (j: nat)
    requires cfg.limits.max >= 1 && i < |events| && Run(cfg, events[..i]).Some?
    requires IsHit(cfg, Run(cfg, events[..i]).value.gate, events[i]) && IsCacheableNull(later)
    ensures var a := Precheck(cfg, events[i].step.req).value;
            && j < i && events[i].at - events[j].at < cfg.limits.ttl
            && AnsweredNullAt(cfg, events[..i], j, cfg.digest(a.material), events[j].at)
            && Begin(cfg, Run(cfg, events[..i]).value.gate, events[i].step.req, events[i].at).begun
               == Stop(NullOutcome(a.verified))
            && Read(later, a, wall) == Refused(NullOutcome(a.verified))
  {
    var a := Precheck(cfg, events[i].step.req).value;
    j := CacheHitRepeatsAnAnswer(cfg, events[..i], a, events[i].at);
    assert events[..i][j] == events[j];
    CacheableExactlyWhenNullOutcome(later, a.verified);
  }
}
