/** Every interleaving of `verify` and `prepare` on one verifier: failures, timeouts, and cancellation at
    each await. The probe lock admits one holder; the limiter lends a slot while fewer than `concurrency`
    are out, and takes a slot back from the task that holds it. */
module RemoteRuns {
  import opened Wrappers
  import opened Throttle
  import opened RemoteResponse
  import opened RemoteVerifier

  type Task = nat

  datatype Job = Verify(admitted: Admitted) | Prepare

  datatype Pc =
    | AwaitLock(job: Job)
    | ProbingNull(job: Job, previous: Option<Time>)
    | ProbingBearer(job: Job, previous: Option<Time>)
    | AwaitSlot(admitted: Admitted)
    | InFlight(admitted: Admitted)
    | Finished(outcome: Outcome)
    | Prepared
    | Gone

  datatype Happening =
    | ProbePassed | ContractFailed
    | SlotTaken(t: Task) | SlotReleased(t: Task)
    | CookieSent(t: Task, admitted: Admitted)

  datatype State = State(
    gate: Gate, lock: Option<Task>, borrowers: set<Task>, tasks: map<Task, Pc>, now: Time,
    attempts: seq<Attempt>, log: seq<Happening>)

  datatype Step =
    | CallVerify(t: Task, req: Request)
    | CallPrepare(t: Task)
    | LockGranted(t: Task)
    | ProbeAnswered(t: Task, result: Transported)
    | SlotGranted(t: Task)
    | SlotTimedOut(t: Task)
    | FetchAnswered(t: Task, result: Transported, wall: real)
    | Cancel(t: Task)

  const START: State := State(SHUT, None, {}, map[], 0.0, [], [])

  predicate Probing(pc: Pc) { pc.ProbingNull? || pc.ProbingBearer? }

  predicate Enabled(cfg: Config, s: State, step: Step, now: Time) {
    s.now <= now &&
    match step
    case CallVerify(t, _) => t !in s.tasks
    case CallPrepare(t) => t !in s.tasks
    case LockGranted(t) => s.lock == None && t in s.tasks && s.tasks[t].AwaitLock?
    case ProbeAnswered(t, _) => t in s.tasks && Probing(s.tasks[t])
    case SlotGranted(t) => t in s.tasks && s.tasks[t].AwaitSlot? && |s.borrowers| < cfg.concurrency
    case SlotTimedOut(t) => t in s.tasks && s.tasks[t].AwaitSlot?
    case FetchAnswered(t, _, _) => t in s.tasks && s.tasks[t].InFlight?
    case Cancel(t) =>
      t in s.tasks && (s.tasks[t].AwaitLock? || Probing(s.tasks[t]) || s.tasks[t].AwaitSlot? || s.tasks[t].InFlight?)
  }

  function At(s: State, t: Task, pc: Pc, now: Time): State { s.(tasks := s.tasks[t := pc], now := now) }

  /** No task but `t` is anywhere else than it was. */
  predicate Moves(s: State, s': State, t: Task) { t in s'.tasks && s'.tasks == s.tasks[t := s'.tasks[t]] }

  /** Where a task goes once the verifier is ready. */
  function Onward(job: Job): Pc { if job.Verify? then AwaitSlot(job.admitted) else Prepared }

  /** `prepare` turns unavailability at boot into a configuration error. */
  function Failing(job: Job, refusal: Refusal): Pc {
    Finished(Refused(if job.Prepare? && refusal.AuthServiceUnavailable? then ConfigurationError else refusal))
  }

  function EnterReady(g: Gate, job: Job): Pc {
    if g.probedOk then Onward(job)
    else if g.contractFailed then Failing(job, ConfigurationError)
    else AwaitLock(job)
  }

  function VerifyStep(cfg: Config, s: State, t: Task, req: Request, now: Time): (s': State)
    ensures Moves(s, s', t)
  {
    var started := Begin(cfg, s.gate, req, now);
    var pc := match started.begun
      case Stop(r) => Finished(Refused(r))
      case Proceed(a) => AwaitSlot(a)
      case NeedLock(a) => AwaitLock(Verify(a));
    At(s, t, pc, now).(gate := started.gate)
  }

  function LockStep(s: State, t: Task, now: Time): (s': State)
    requires t in s.tasks && s.tasks[t].AwaitLock?
    ensures Moves(s, s', t)
  {
    var job := s.tasks[t].job;
    match UnderLock(s.gate, now)
    case Ready => At(s, t, Onward(job), now)
    case Raise(r) => At(s, t, Failing(job, r), now)
    case Probe(g, previous) =>
      At(s, t, ProbingNull(job, previous), now)
        .(gate := g, lock := Some(t), attempts := Throttle.Begun(s.attempts, now))
  }

  function ProbeVerdict(cfg: Config, pc: Pc, result: Transported): Verdict {
    if pc.ProbingNull? then NullContract(result) else BearerRung(result, cfg.refuseUnsignedBearer)
  }

  function ProbeStep(cfg: Config, s: State, t: Task, result: Transported, now: Time): (s': State)
    requires t in s.tasks && Probing(s.tasks[t])
    ensures Moves(s, s', t)
  {
    AfterVerdict(s, t, ProbeVerdict(cfg, s.tasks[t], result), now)
  }

  function AfterVerdict(s: State, t: Task, verdict: Verdict, now: Time): (s': State)
    requires t in s.tasks && Probing(s.tasks[t])
    ensures Moves(s, s', t)
  {
    var pc := s.tasks[t];
    match verdict
    case More => At(s, t, ProbingBearer(pc.job, pc.previous), now)
    case Passed =>
      At(s, t, Onward(pc.job), now).(gate := Concluded(s.gate, Passed), lock := None, log := s.log + [ProbePassed])
    case Contract =>
      At(s, t, Failing(pc.job, ConfigurationError), now)
        .(gate := Concluded(s.gate, Contract), lock := None, log := s.log + [ContractFailed])
    case Unreached(r) => At(s, t, Failing(pc.job, r), now).(gate := Concluded(s.gate, verdict), lock := None)
  }

  function SlotStep(s: State, t: Task, now: Time): (s': State)
    requires t in s.tasks && s.tasks[t].AwaitSlot?
    ensures Moves(s, s', t)
  {
    var a := s.tasks[t].admitted;
    At(s, t, InFlight(a), now).(borrowers := s.borrowers + {t}, log := s.log + [SlotTaken(t), CookieSent(t, a)])
  }

  /** The slot goes back on every way out of the fetch. */
  function Released(s: State, t: Task): State {
    s.(borrowers := s.borrowers - {t}, log := s.log + [SlotReleased(t)])
  }

  function FetchStep(cfg: Config, s: State, t: Task, result: Transported, now: Time, wall: real): (s': State)
    requires cfg.limits.max >= 1 && t in s.tasks && s.tasks[t].InFlight?
    ensures Moves(s, s', t)
  {
    var settled := Settle(cfg, s.gate, s.tasks[t].admitted, result, now, wall);
    Released(At(s, t, Finished(settled.outcome), now).(gate := settled.gate), t)
  }

  function CancelStep(s: State, t: Task, now: Time): (s': State)
    requires t in s.tasks
    ensures Moves(s, s', t)
  {
    var pc := s.tasks[t];
    var gone := At(s, t, Gone, now);
    if Probing(pc) then
      gone.(gate := Abandoned(s.gate, pc.previous), lock := None,
            attempts := if s.attempts == [] then [] else Cancelled(s.attempts))
    else if pc.InFlight? then Released(gone, t)
    else gone
  }

  function Apply(cfg: Config, s: State, step: Step, now: Time): (s': State)
    requires cfg.limits.max >= 1 && Enabled(cfg, s, step, now)
    ensures Moves(s, s', step.t)
  {
    match step
    case CallVerify(t, req) => VerifyStep(cfg, s, t, req, now)
    case CallPrepare(t) => At(s, t, EnterReady(s.gate, Prepare), now)
    case LockGranted(t) => LockStep(s, t, now)
    case ProbeAnswered(t, result) => ProbeStep(cfg, s, t, result, now)
    case SlotGranted(t) => SlotStep(s, t, now)
    case SlotTimedOut(t) => At(s, t, Finished(Refused(AuthServiceUnavailable)), now)
    case FetchAnswered(t, result, wall) => FetchStep(cfg, s, t, result, now, wall)
    case Cancel(t) => CancelStep(s, t, now)
  }

  datatype Event = Event(step: Step, at: Time)

  function Run(cfg: Config, events: seq<Event>): Option<State>
    requires cfg.limits.max >= 1
  {
    if events == [] then Some(START)
    else
      var last := events[|events| - 1];
      match Run(cfg, events[..|events| - 1])
      case None => None
      case Some(s) => if Enabled(cfg, s, last.step, last.at) then Some(Apply(cfg, s, last.step, last.at)) else None
  }

  // ---- the probe

  /** At most one probe in flight, its task holding the lock, and only while nothing is decided. */
  ghost predicate LockInv(s: State) {
    && (s.lock.Some? ==> s.lock.value in s.tasks && Probing(s.tasks[s.lock.value]))
    && (forall t :: t in s.tasks && Probing(s.tasks[t]) ==> s.lock == Some(t))
    && (s.lock.Some? ==> !s.gate.probedOk && !s.gate.contractFailed)
  }

  ghost predicate Onwards(pc: Pc) { pc.AwaitSlot? || pc.InFlight? }

  /** Passed and failed are what the log says, never both, and nothing goes onward before a pass. */
  ghost predicate ProbeInv(s: State) {
    && (s.gate.probedOk <==> ProbePassed in s.log)
    && (s.gate.contractFailed <==> ContractFailed in s.log)
    && !(s.gate.probedOk && s.gate.contractFailed)
    && (forall t :: t in s.tasks && Onwards(s.tasks[t]) ==> s.gate.probedOk)
    && SentAfterPass(s.log)
  }

  ghost predicate SentAfterPass(log: seq<Happening>) {
    forall i :: 0 <= i < |log| && log[i].CookieSent? ==> ProbePassed in log[..i]
  }

  ghost predicate WindowInv(s: State) {
    && Apart(Kept(s.attempts), PROBE_RETRY_INTERVAL)
    && s.gate.probeAttemptedAt == LastKept(s.attempts)
    && (s.lock.Some? && s.lock.value in s.tasks && Probing(s.tasks[s.lock.value]) ==>
          && s.attempts != [] && !s.attempts[|s.attempts| - 1].cancelled
          && LastKept(s.attempts[..|s.attempts| - 1]) == s.tasks[s.lock.value].previous)
  }

  ghost predicate Inv(s: State) { LockInv(s) && ProbeInv(s) && WindowInv(s) }

  lemma {:induction false} SentAfterPassSnoc(log: seq<Happening>, h: Happening)
    requires SentAfterPass(log) && (h.CookieSent? ==> ProbePassed in log)
    ensures SentAfterPass(log + [h])
  {
    var longer := log + [h];
    forall i | 0 <= i < |longer| && longer[i].CookieSent? ensures ProbePassed in longer[..i] {
      assert longer[..i] == if i < |log| then log[..i] else log;
    }
  }

  /** The gates' own steps leave the probe's fields alone. */
  lemma {:induction false} GatesKeepProbe(cfg: Config, g: Gate, checked: Result<Admitted, Refusal>, now: Time)
    ensures var g' := Gated(cfg, g, checked, now).gate;
            && g'.probedOk == g.probedOk && g'.contractFailed == g.contractFailed
            && g'.probeAttemptedAt == g.probeAttemptedAt
    ensures Gated(cfg, g, checked, now).begun.Proceed? ==> g.probedOk
  {
  }

  lemma {:induction false} SettleKeepsProbe(
      cfg: Config, g: Gate, a: Admitted, result: Transported, now: Time, wall: real)
    requires cfg.limits.max >= 1
    ensures var g' := Settle(cfg, g, a, result, now, wall).gate;
            && g'.probedOk == g.probedOk && g'.contractFailed == g.contractFailed
            && g'.probeAttemptedAt == g.probeAttemptedAt
  {
  }

  /** A step that changes one task outside the probe, and adds nothing about the probe to the log. */
  lemma {:induction false} QuietStepKeeps(s: State, s': State, t: Task)
    requires Inv(s) && s'.lock == s.lock && s'.attempts == s.attempts
    requires s'.gate.probedOk == s.gate.probedOk && s'.gate.contractFailed == s.gate.contractFailed
    requires s'.gate.probeAttemptedAt == s.gate.probeAttemptedAt
    requires t in s'.tasks && s'.tasks == s.tasks[t := s'.tasks[t]]
    requires t in s.tasks ==> !Probing(s.tasks[t])
    requires !Probing(s'.tasks[t]) && (Onwards(s'.tasks[t]) ==> s.gate.probedOk)
    requires SentAfterPass(s'.log)
    requires ProbePassed in s'.log <==> ProbePassed in s.log
    requires ContractFailed in s'.log <==> ContractFailed in s.log
    ensures Inv(s')
  {
  }

  lemma {:induction false} LockStepKeeps(s: State, t: Task, now: Time)
    requires Inv(s) && s.lock == None && t in s.tasks && s.tasks[t].AwaitLock? && s.now <= now
    ensures Inv(LockStep(s, t, now))
  {
    var s' := LockStep(s, t, now);
    if UnderLock(s.gate, now).Probe? {
      BeginKeepsApart(s.attempts, PROBE_RETRY_INTERVAL, now);
      assert s'.attempts[..|s'.attempts| - 1] == s.attempts;
      assert WindowInv(s') && LockInv(s') && ProbeInv(s');
    } else {
      QuietStepKeeps(s, s', t);
    }
  }

  lemma {:induction false} ProbeStepKeeps(cfg: Config, s: State, t: Task, result: Transported, now: Time)
    requires Inv(s) && t in s.tasks && Probing(s.tasks[t]) && s.now <= now
    ensures Inv(ProbeStep(cfg, s, t, result, now))
  {
    var s' := ProbeStep(cfg, s, t, result, now);
    match ProbeVerdict(cfg, s.tasks[t], result) {
      case More => ProbeContinues(s, s', t);
      case Passed => ProbeEnds(s, s', t, Passed);
      case Contract => ProbeEnds(s, s', t, Contract);
      case Unreached(r) => ProbeEnds(s, s', t, Unreached(r));
    }
  }

  lemma {:induction false} ProbeContinues(s: State, s': State, t: Task)
    requires Inv(s) && t in s.tasks && Probing(s.tasks[t])
    requires s' == s.(tasks := s.tasks[t := ProbingBearer(s.tasks[t].job, s.tasks[t].previous)], now := s'.now)
    ensures Inv(s')
  {
  }

  /** A probe's end releases the lock, records a decided verdict, and lets its own task alone onward. */
  lemma {:induction false} ProbeEnds(s: State, s': State, t: Task, verdict: Verdict)
    requires Inv(s) && t in s.tasks && Probing(s.tasks[t]) && !verdict.More?
    requires s'.gate == Concluded(s.gate, verdict) && s'.lock == None && s'.attempts == s.attempts
    requires t in s'.tasks && s'.tasks == s.tasks[t := s'.tasks[t]] && !Probing(s'.tasks[t])
    requires Onwards(s'.tasks[t]) ==> verdict == Passed
    requires s'.log == s.log + if verdict.Passed? then [ProbePassed]
      else if verdict.Contract? then [ContractFailed] else []
    ensures Inv(s')
  {
    if verdict.Passed? { SentAfterPassSnoc(s.log, ProbePassed); }
    if verdict.Contract? { SentAfterPassSnoc(s.log, ContractFailed); }
    assert s.lock == Some(t);
  }

  lemma {:induction false} CancelStepKeeps(cfg: Config, s: State, t: Task, now: Time)
    requires Inv(s) && Enabled(cfg, s, Cancel(t), now)
    ensures Inv(CancelStep(s, t, now))
  {
    var s' := CancelStep(s, t, now);
    if Probing(s.tasks[t]) {
      CancelRestores(s.attempts);
      KeptPrefixApart(s.attempts, PROBE_RETRY_INTERVAL);
      assert LockInv(s') && WindowInv(s') && ProbeInv(s');
    } else {
      SentAfterPassSnoc(s.log, SlotReleased(t));
      QuietStepKeeps(s, s', t);
    }
  }

  lemma {:induction false} SlotStepKeeps(s: State, t: Task, now: Time)
    requires Inv(s) && t in s.tasks && s.tasks[t].AwaitSlot? && s.now <= now
    ensures Inv(SlotStep(s, t, now))
  {
    var s', a := SlotStep(s, t, now), s.tasks[t].admitted;
    SentAfterPassSnoc(s.log, SlotTaken(t));
    SentAfterPassSnoc(s.log + [SlotTaken(t)], CookieSent(t, a));
    assert s'.log == s.log + [SlotTaken(t)] + [CookieSent(t, a)];
    QuietStepKeeps(s, s', t);
  }

  lemma {:induction false} StepKeeps(cfg: Config, s: State, step: Step, now: Time)
    requires cfg.limits.max >= 1 && Inv(s) && Enabled(cfg, s, step, now)
    ensures Inv(Apply(cfg, s, step, now))
  {
    match step {
      case CallVerify(t, req) =>
        GatesKeepProbe(cfg, s.gate, Precheck(cfg, req), now);
        QuietStepKeeps(s, VerifyStep(cfg, s, t, req, now), t);
      case CallPrepare(t) => QuietStepKeeps(s, Apply(cfg, s, step, now), t);
      case LockGranted(t) => LockStepKeeps(s, t, now);
      case ProbeAnswered(t, result) => ProbeStepKeeps(cfg, s, t, result, now);
      case SlotGranted(t) => SlotStepKeeps(s, t, now);
      case SlotTimedOut(t) => QuietStepKeeps(s, Apply(cfg, s, step, now), t);
      case FetchAnswered(t, result, wall) =>
        SettleKeepsProbe(cfg, s.gate, s.tasks[t].admitted, result, now, wall);
        SentAfterPassSnoc(s.log, SlotReleased(t));
        QuietStepKeeps(s, FetchStep(cfg, s, t, result, now, wall), t);
      case Cancel(t) => CancelStepKeeps(cfg, s, t, now);
    }
  }

  lemma {:induction false} RunKeeps(cfg: Config, events: seq<Event>)
    requires cfg.limits.max >= 1 && Run(cfg, events).Some?
    ensures Inv(Run(cfg, events).value)
  {
    if events != [] {
      var n := |events| - 1;
      RunKeeps(cfg, events[..n]);
      StepKeeps(cfg, Run(cfg, events[..n]).value, events[n].step, events[n].at);
    }
  }

  /** In every interleaving, no cookie is sent before a probe has passed. */
  lemma {:induction false} NothingSentBeforePass(cfg: Config, events: seq<Event>, i: nat)
    requires cfg.limits.max >= 1 && Run(cfg, events).Some?
    requires i < |Run(cfg, events).value.log| && Run(cfg, events).value.log[i].CookieSent?
    ensures ProbePassed in Run(cfg, events).value.log[..i]
  {
    RunKeeps(cfg, events);
  }

  /** "Passed" and "contract failed" are each permanent, and never both true. */
  lemma {:induction false} VerdictsArePermanent(cfg: Config, events: seq<Event>, n: nat)
    requires cfg.limits.max >= 1 && Run(cfg, events).Some? && n <= |events|
    ensures Run(cfg, events[..n]).Some?
    ensures var early, late := Run(cfg, events[..n]).value.gate, Run(cfg, events).value.gate;
            && (early.probedOk ==> late.probedOk) && (early.contractFailed ==> late.contractFailed)
            && !(late.probedOk && late.contractFailed)
  {
    RunKeeps(cfg, events);
    if n == |events| {
      assert events[..n] == events;
    } else {
      var m := |events| - 1;
      var before := events[..m];
      assert before[..n] == events[..n];
      VerdictsArePermanent(cfg, before, n);
      VerdictsStand(cfg, Run(cfg, before).value, events[m].step, events[m].at);
    }
  }

  lemma {:induction false} VerdictsStand(cfg: Config, s: State, step: Step, now: Time)
    requires cfg.limits.max >= 1 && Enabled(cfg, s, step, now)
    ensures var g := Apply(cfg, s, step, now).gate;
            (s.gate.probedOk ==> g.probedOk) && (s.gate.contractFailed ==> g.contractFailed)
  {
    match step {
      case CallVerify(t, req) => GatesKeepProbe(cfg, s.gate, Precheck(cfg, req), now);
      case FetchAnswered(t, result, wall) => SettleKeepsProbe(cfg, s.gate, s.tasks[t].admitted, result, now, wall);
      case _ =>
    }
  }

  /** Probes that were not cancelled start at least the retry interval apart, though a cancellation hands
      its stamp back; so any span of `span` seconds holds at most `floor(span / 10) + 1` of them. */
  lemma {:induction false} ProbesAreSpaced(cfg: Config, events: seq<Event>, from: Time, span: Time)
    requires cfg.limits.max >= 1 && Run(cfg, events).Some? && span >= 0.0
    ensures var starts := Kept(Run(cfg, events).value.attempts);
            && Apart(starts, PROBE_RETRY_INTERVAL)
            && |Within(starts, from, span)| <= (span / PROBE_RETRY_INTERVAL).Floor + 1
  {
    RunKeeps(cfg, events);
    AtMostPerSpan(Kept(Run(cfg, events).value.attempts), PROBE_RETRY_INTERVAL, from, span);
  }
}
