/** What the readiness gate rests on, exactly: which answers pass the verifier, which break its contract for
    good, and when it probes again. */
module RemoteReadiness {
  import opened Wrappers
  import opened Throttle
  import opened RemoteResponse
  import opened RemoteVerifier
  import opened RemoteRuns

  predicate BareNull(result: Transported) {
    result.Answered? && result.response.status == 200 && IsJson(result.response) && result.response.body == Null
  }

  predicate SetsCookie(result: Transported) { result.Answered? && "set-cookie" in result.response.headers }

  /** The step ends a probe's bearer request, in any way at all - or, where a bearer is to be refused, with an
      answer that set no cookie. */
  predicate Passes(cfg: Config, s: State, step: Step) {
    && step.ProbeAnswered? && step.t in s.tasks && s.tasks[step.t].ProbingBearer?
    && (cfg.refuseUnsignedBearer ==> step.result.Answered? && !SetsCookie(step.result))
  }

  /** The step answers the bare request with anything but `200` and `null`, the bearer request with a cookie
      where that is to be refused, or either with the library's own configuration error. */
  predicate Breaks(cfg: Config, s: State, step: Step) {
    && step.ProbeAnswered? && step.t in s.tasks
    && match s.tasks[step.t]
       case ProbingNull(_, _) =>
         (step.result.Answered? && !BareNull(step.result)) || step.result == LibraryError(ConfigurationError)
       case ProbingBearer(_, _) =>
         cfg.refuseUnsignedBearer && (SetsCookie(step.result) || step.result == LibraryError(ConfigurationError))
       case _ => false
  }

  ghost predicate PassesAt(cfg: Config, events: seq<Event>, j: nat)
    requires cfg.limits.max >= 1
  {
    j < |events| && Run(cfg, events[..j]).Some? && Passes(cfg, Run(cfg, events[..j]).value, events[j].step)
  }

  ghost predicate BreaksAt(cfg: Config, events: seq<Event>, j: nat)
    requires cfg.limits.max >= 1
  {
    j < |events| && Run(cfg, events[..j]).Some? && Breaks(cfg, Run(cfg, events[..j]).value, events[j].step)
  }

  ghost predicate HasPassed(cfg: Config, events: seq<Event>)
    requires cfg.limits.max >= 1
  {
    exists j: nat :: PassesAt(cfg, events, j)
  }

  ghost predicate HasBroken(cfg: Config, events: seq<Event>)
    requires cfg.limits.max >= 1
  {
    exists j: nat :: BreaksAt(cfg, events, j)
  }

  /** In every interleaving the verifier is ready exactly when some probe passed, and out of service for good
      exactly when some probe broke the contract: a timeout, a refused connection or a cancellation is
      neither. */
  lemma {:induction false} ReadinessExactly(cfg: Config, events: seq<Event>)
    requires cfg.limits.max >= 1 && Run(cfg, events).Some?
    ensures Run(cfg, events).value.gate.probedOk <==> HasPassed(cfg, events)
    ensures Run(cfg, events).value.gate.contractFailed <==> HasBroken(cfg, events)
  {
    if events == [] {
      assert forall j: nat :: !PassesAt(cfg, events, j) && !BreaksAt(cfg, events, j);
    } else {
      var n := |events| - 1;
      ReadinessExactly(cfg, events[..n]);
      StepDecides(cfg, Run(cfg, events[..n]).value, events[n].step, events[n].at);
      PassedSnoc(cfg, events);
      BrokenSnoc(cfg, events);
    }
  }

  lemma {:induction false} PassedSnoc(cfg: Config, events: seq<Event>)
    requires cfg.limits.max >= 1 && events != []
    ensures HasPassed(cfg, events) <==> HasPassed(cfg, events[..|events| - 1]) || PassesAt(cfg, events, |events| - 1)
  {
    var before := events[..|events| - 1];
    forall j: nat | j < |before| ensures PassesAt(cfg, before, j) <==> PassesAt(cfg, events, j) {
      assert before[..j] == events[..j] && before[j] == events[j];
    }
  }

  lemma {:induction false} BrokenSnoc(cfg: Config, events: seq<Event>)
    requires cfg.limits.max >= 1 && events != []
    ensures HasBroken(cfg, events) <==> HasBroken(cfg, events[..|events| - 1]) || BreaksAt(cfg, events, |events| - 1)
  {
    var before := events[..|events| - 1];
    forall j: nat | j < |before| ensures BreaksAt(cfg, before, j) <==> BreaksAt(cfg, events, j) {
      assert before[..j] == events[..j] && before[j] == events[j];
    }
  }

  lemma {:induction false} StepDecides(cfg: Config, s: State, step: Step, now: Time)
    requires cfg.limits.max >= 1 && Enabled(cfg, s, step, now)
    ensures var g := Apply(cfg, s, step, now).gate;
            && (g.probedOk <==> s.gate.probedOk || Passes(cfg, s, step))
            && (g.contractFailed <==> s.gate.contractFailed || Breaks(cfg, s, step))
  {
    match step {
      case CallVerify(t, req) => GatesKeepProbe(cfg, s.gate, Precheck(cfg, req), now);
      case FetchAnswered(t, result, wall) => SettleKeepsProbe(cfg, s.gate, s.tasks[t].admitted, result, now, wall);
      case ProbeAnswered(t, result) => ProbeDecides(cfg, s, t, result, now);
      case _ =>
    }
  }

  lemma {:induction false} ProbeDecides(cfg: Config, s: State, t: Task, result: Transported, now: Time)
    requires t in s.tasks && Probing(s.tasks[t])
    ensures var g := ProbeStep(cfg, s, t, result, now).gate;
            && (g.probedOk <==> s.gate.probedOk || Passes(cfg, s, ProbeAnswered(t, result)))
            && (g.contractFailed <==> s.gate.contractFailed || Breaks(cfg, s, ProbeAnswered(t, result)))
  {
    VerdictExactly(cfg, s.tasks[t], result);
  }

  lemma {:induction false} VerdictExactly(cfg: Config, pc: Pc, result: Transported)
    requires Probing(pc)
    ensures var v := ProbeVerdict(cfg, pc, result); var refuse := cfg.refuseUnsignedBearer;
            if pc.ProbingNull? then
              v == if BareNull(result) then More
                   else if result.Answered? || result == LibraryError(ConfigurationError) then Contract
                   else if result.Failed? then Unreached(AuthServiceUnavailable) else Unreached(result.refusal)
            else
              v == if !refuse || (result.Answered? && !SetsCookie(result)) then Passed
                   else if result.Answered? || result == LibraryError(ConfigurationError) then Contract
                   else if result.Failed? then Unreached(AuthServiceUnavailable) else Unreached(result.refusal)
  {
  }

  /** A probe started too short a while ago for another. */
  ghost predicate HeldBack(s: State, now: Time) {
    LastKept(s.attempts).Some? && now - LastKept(s.attempts).value < 10.0
  }

  /** Under the probe lock a task goes on where some probe has passed, stops for good where one broke the
      contract, is turned away where the last one counted started less than ten seconds ago - and otherwise
      probes, however many went unreached before. */
  lemma {:induction false} LockLeadsExactly(cfg: Config, events: seq<Event>, t: Task, now: Time)
    requires cfg.limits.max >= 1 && Run(cfg, events).Some?
    requires Enabled(cfg, Run(cfg, events).value, LockGranted(t), now)
    ensures var s := Run(cfg, events).value; var job := s.tasks[t].job;
            LockStep(s, t, now).tasks[t] ==
              if HasPassed(cfg, events) then (if job.Verify? then AwaitSlot(job.admitted) else Prepared)
              else if HasBroken(cfg, events) then Finished(Refused(ConfigurationError))
              else if !HeldBack(s, now) then ProbingNull(job, LastKept(s.attempts))
              else Finished(Refused(if job.Verify? then AuthServiceUnavailable else ConfigurationError))
  {
    RunKeeps(cfg, events);
    ReadinessExactly(cfg, events);
    LockLeads(Run(cfg, events).value, t, now);
  }

  lemma {:induction false} LockLeads(s: State, t: Task, now: Time)
    requires t in s.tasks && s.tasks[t].AwaitLock? && s.gate.probeAttemptedAt == LastKept(s.attempts)
    ensures var job := s.tasks[t].job;
            LockStep(s, t, now).tasks[t] ==
              if s.gate.probedOk then (if job.Verify? then AwaitSlot(job.admitted) else Prepared)
              else if s.gate.contractFailed then Finished(Refused(ConfigurationError))
              else if !HeldBack(s, now) then ProbingNull(job, LastKept(s.attempts))
              else Finished(Refused(if job.Verify? then AuthServiceUnavailable else ConfigurationError))
  {
  }

  /** What `prepare` is told before it waits for the lock. */
  lemma {:induction false} PrepareLeadsExactly(cfg: Config, events: seq<Event>, t: Task, now: Time)
    requires cfg.limits.max >= 1 && Run(cfg, events).Some?
    requires Enabled(cfg, Run(cfg, events).value, CallPrepare(t), now)
    ensures Apply(cfg, Run(cfg, events).value, CallPrepare(t), now).tasks[t] ==
      if HasPassed(cfg, events) then Prepared
      else if HasBroken(cfg, events) then Finished(Refused(ConfigurationError))
      else AwaitLock(Prepare)
  {
    ReadinessExactly(cfg, events);
  }

  /** Where a probe's own task goes on its answer: `prepare` makes a configuration error of an unavailable
      service, and the library's own errors are otherwise passed on as they are. */
  lemma {:induction false} ProbeLeadsExactly(cfg: Config, s: State, t: Task, result: Transported, now: Time)
    requires t in s.tasks && Probing(s.tasks[t])
    ensures var pc, step := s.tasks[t], ProbeAnswered(t, result);
            ProbeStep(cfg, s, t, result, now).tasks[t] ==
              if pc.ProbingNull? && BareNull(result) then ProbingBearer(pc.job, pc.previous)
              else if Passes(cfg, s, step) then (if pc.job.Verify? then AwaitSlot(pc.job.admitted) else Prepared)
              else if Breaks(cfg, s, step) then Finished(Refused(ConfigurationError))
              else
                var r := if result.Failed? then AuthServiceUnavailable else result.refusal;
                Finished(Refused(if pc.job.Prepare? && r == AuthServiceUnavailable then ConfigurationError else r))
  {
    VerdictExactly(cfg, s.tasks[t], result);
  }
}
