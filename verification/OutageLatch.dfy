/** The once-per-kind outage latch: the sequential latch, and every interleaving of threads on it. */
module OutageLatch {
  import opened Wrappers

  const MAX_REPORTED_KINDS := 8

  datatype FailureKind = FailureKind(driverError: string, sqlstate: Option<string>)

  datatype Admission = Report | Overflow | Silent

  datatype Latch = Latch(reported: set<FailureKind>, overflowed: bool)

  const ARMED := Latch({}, false)

  datatype Admitted = Admitted(latch: Latch, admission: Admission)

  /** The sequential latch. */
  function Admit(l: Latch, kind: FailureKind): Admitted {
    if l.overflowed || kind in l.reported then Admitted(l, Silent)
    else if |l.reported| >= MAX_REPORTED_KINDS then Admitted(l.(overflowed := true), Overflow)
    else Admitted(l.(reported := l.reported + {kind}), Report)
  }

  class OutageLatch {
    var reported: set<FailureKind>
    var overflowed: bool

    ghost function State(): Latch
      reads this
    {
      Latch(reported, overflowed)
    }

    ghost predicate Valid()
      reads this
    {
      |reported| <= MAX_REPORTED_KINDS && (overflowed ==> |reported| == MAX_REPORTED_KINDS)
    }

    constructor ()
      ensures Valid() && State() == ARMED
    {
      reported, overflowed := {}, false;
    }

    method AdmitKind(kind: FailureKind) returns (admission: Admission)
      requires Valid()
      modifies this
      ensures Valid() && Admitted(State(), admission) == Admit(old(State()), kind)
    {
      if overflowed || kind in reported { return Silent; }
      if |reported| >= MAX_REPORTED_KINDS {
        overflowed := true;
        return Overflow;
      }
      reported := reported + {kind};
      return Report;
    }

    /** A latch that has reported nothing has nothing to clear; the guard is exact only because such a
        latch cannot have overflowed. */
    method Rearm()
      requires Valid()
      modifies this
      ensures Valid() && State() == ARMED
    {
      if reported == {} { return; }
      reported := {};
      overflowed := false;
    }
  }

  // ---- sequential histories

  datatype Op = AdmitOp(kind: FailureKind) | RearmOp

  /** One linearized operation and what it answered; a re-arm answers nothing. */
  datatype Entry = Entry(thread: nat, op: Op, admission: Option<Admission>)

  function Next(l: Latch, op: Op): Latch {
    match op
    case AdmitOp(kind) => Admit(l, kind).latch
    case RearmOp => ARMED
  }

  function Answer(l: Latch, op: Op): Option<Admission> {
    match op
    case AdmitOp(kind) => Some(Admit(l, kind).admission)
    case RearmOp => None
  }

  function Replay(log: seq<Entry>): Latch {
    if log == [] then ARMED else Next(Replay(log[..|log| - 1]), log[|log| - 1].op)
  }

  /** Every entry answers what the sequential latch answers at its place in the order. */
  ghost predicate Legal(log: seq<Entry>) {
    forall i :: 0 <= i < |log| ==> log[i].admission == Answer(Replay(log[..i]), log[i].op)
  }

  /** Overflow means the reported set is full. */
  lemma {:induction false} OverflowMeansFull(log: seq<Entry>)
    ensures var l := Replay(log);
            |l.reported| <= MAX_REPORTED_KINDS && (l.overflowed ==> |l.reported| == MAX_REPORTED_KINDS)
  {
    if log != [] { OverflowMeansFull(log[..|log| - 1]); }
  }

  /** The kinds reported since the last re-arm. */
  function Reports(log: seq<Entry>): seq<FailureKind> {
    if log == [] || log[|log| - 1].op.RearmOp? then []
    else
      var last := log[|log| - 1];
      Reports(log[..|log| - 1]) + if last.admission == Some(Report) then [last.op.kind] else []
  }

  function Notices(log: seq<Entry>): nat {
    if log == [] || log[|log| - 1].op.RearmOp? then 0
    else Notices(log[..|log| - 1]) + if log[|log| - 1].admission == Some(Overflow) then 1 else 0
  }

  /** Between two re-arms: at most `MAX_REPORTED_KINDS` reports, all of distinct kinds, which are exactly
      the kinds held, and one overflow notice at most, given exactly when the latch has overflowed. */
  lemma {:induction false} ReportsAreBounded(log: seq<Entry>)
    requires Legal(log)
    ensures Matches(Reports(log), Notices(log), Replay(log))
  {
    if log != [] {
      var before, last := log[..|log| - 1], log[|log| - 1];
      LegalBefore(log);
      ReportsAreBounded(before);
      OverflowMeansFull(before);
      if last.op.AdmitOp? { AdmitMatches(Reports(before), Notices(before), Replay(before), last.op.kind); }
    }
  }

  /** Distinct reports of exactly the kinds held, and a notice exactly when overflowed. */
  ghost predicate Matches(reports: seq<FailureKind>, notices: nat, l: Latch) {
    && |reports| == |l.reported| <= MAX_REPORTED_KINDS && notices == (if l.overflowed then 1 else 0)
    && (forall i, j :: 0 <= i < j < |reports| ==> reports[i] != reports[j])
    && (forall kind :: kind in reports <==> kind in l.reported)
  }

  lemma {:induction false} AdmitMatches(reports: seq<FailureKind>, notices: nat, l: Latch, kind: FailureKind)
    requires Matches(reports, notices, l)
    ensures var a := Admit(l, kind);
            Matches(reports + if a.admission.Report? then [kind] else [],
                    notices + if a.admission.Overflow? then 1 else 0, a.latch)
  {
    if Admit(l, kind).admission.Report? { ReportMatches(reports, l.reported, kind); }
  }

  lemma {:induction false} ReportMatches(reports: seq<FailureKind>, held: set<FailureKind>, kind: FailureKind)
    requires kind !in held && forall k :: k in reports <==> k in held
    ensures forall k :: k in reports + [kind] <==> k in held + {kind}
    ensures |held + {kind}| == |held| + 1
  {
  }

  lemma {:induction false} LegalBefore(log: seq<Entry>)
    requires log != [] && Legal(log)
    ensures var n := |log| - 1; Legal(log[..n]) && log[n].admission == Answer(Replay(log[..n]), log[n].op)
  {
    var n := |log| - 1;
    assert forall i :: 0 <= i < n ==> log[..n][..i] == log[..i];
  }

  /** The kinds admitted since the last re-arm, whatever they were answered. */
  function Kinds(log: seq<Entry>): set<FailureKind> {
    if log == [] || log[|log| - 1].op.RearmOp? then {}
    else Kinds(log[..|log| - 1]) + {log[|log| - 1].op.kind}
  }

  /** What a kind is due after those: its report if it is among the first eight, the one notice if it is the
      ninth, and silence if it came before or eight others and a ninth did. */
  function Due(kinds: set<FailureKind>, kind: FailureKind): Admission {
    if kind in kinds || |kinds| > 8 then Silent else if |kinds| == 8 then Overflow else Report
  }

  /** The latch answers by the calls alone. */
  lemma {:induction false} AnswersAreDue(log: seq<Entry>, kind: FailureKind)
    ensures Answer(Replay(log), AdmitOp(kind)) == Some(Due(Kinds(log), kind))
  {
    KindsAreHeld(log);
  }

  lemma {:induction false} KindsAreHeld(log: seq<Entry>)
    ensures |Kinds(log)| <= 8 ==> Replay(log) == Latch(Kinds(log), false)
    ensures |Kinds(log)| > 8 ==> Replay(log).overflowed
  {
    if log != [] {
      var before, last := log[..|log| - 1], log[|log| - 1];
      KindsAreHeld(before);
      if last.op.AdmitOp? { OneMoreKind(Kinds(before), last.op.kind); }
    }
  }

  lemma {:induction false} OneMoreKind(kinds: set<FailureKind>, kind: FailureKind)
    ensures if kind in kinds then kinds + {kind} == kinds else |kinds + {kind}| == |kinds| + 1
  {
  }

  // ---- threads

  /** One thread's program counter. The lock guards everything from `Locked` on; `Peek` is the unlocked
      read that opens a re-arm. */
  datatype Pc =
    | Idle
    | WantAdmit(kind: FailureKind)
    | Locked(kind: FailureKind)
    | Unlocking(kind: FailureKind, answer: Admission)
    | Peek
    | WantRearm
    | RearmLocked
    | Cleared

  /** `log` records operations in the order they take effect; `finished` what each call returned. */
  datatype State = State(
    latch: Latch, holder: Option<nat>, threads: map<nat, Pc>, log: seq<Entry>, finished: seq<Entry>)

  const START := State(ARMED, None, map[], [], [])

  function PcOf(s: State, t: nat): Pc { if t in s.threads then s.threads[t] else Idle }

  function At(s: State, t: nat, pc: Pc): State { s.(threads := s.threads[t := pc]) }

  datatype Step =
    | CallAdmit(t: nat, kind: FailureKind) | TakeForAdmit(t: nat) | Decide(t: nat) | ReturnAdmit(t: nat)
    | CallRearm(t: nat) | Look(t: nat) | TakeForRearm(t: nat) | ClearReported(t: nat) | ClearOverflow(t: nat)

  predicate Enabled(s: State, step: Step) {
    match step
    case CallAdmit(t, _) => PcOf(s, t).Idle?
    case TakeForAdmit(t) => PcOf(s, t).WantAdmit? && s.holder == None
    case Decide(t) => PcOf(s, t).Locked?
    case ReturnAdmit(t) => PcOf(s, t).Unlocking?
    case CallRearm(t) => PcOf(s, t).Idle?
    case Look(t) => PcOf(s, t).Peek?
    case TakeForRearm(t) => PcOf(s, t).WantRearm? && s.holder == None
    case ClearReported(t) => PcOf(s, t).RearmLocked?
    case ClearOverflow(t) => PcOf(s, t).Cleared?
  }

  function Apply(s: State, step: Step): State
    requires Enabled(s, step)
  {
    match step
    case CallAdmit(t, kind) => At(s, t, WantAdmit(kind))
    case TakeForAdmit(t) => At(s, t, Locked(PcOf(s, t).kind)).(holder := Some(t))
    case Decide(t) =>
      var kind := PcOf(s, t).kind;
      var a := Admit(s.latch, kind);
      At(s, t, Unlocking(kind, a.admission))
        .(latch := a.latch, log := s.log + [Entry(t, AdmitOp(kind), Some(a.admission))])
    case ReturnAdmit(t) =>
      var pc := PcOf(s, t);
      At(s, t, Idle).(holder := None, finished := s.finished + [Entry(t, AdmitOp(pc.kind), Some(pc.answer))])
    case CallRearm(t) => At(s, t, Peek)
    case Look(t) =>
      // Nothing reported: the call returns here, without the lock and without writing anything.
      if s.latch.reported == {} then
        At(s, t, Idle).(log := s.log + [Entry(t, RearmOp, None)], finished := s.finished + [Entry(t, RearmOp, None)])
      else At(s, t, WantRearm)
    case TakeForRearm(t) => At(s, t, RearmLocked).(holder := Some(t))
    case ClearReported(t) =>
      At(s, t, Cleared).(latch := s.latch.(reported := {}), log := s.log + [Entry(t, RearmOp, None)])
    case ClearOverflow(t) =>
      At(s, t, Idle)
        .(latch := s.latch.(overflowed := false), holder := None, finished := s.finished + [Entry(t, RearmOp, None)])
  }

  function Run(steps: seq<Step>): Option<State> {
    if steps == [] then Some(START)
    else match Run(steps[..|steps| - 1])
      case None => None
      case Some(s) => if Enabled(s, steps[|steps| - 1]) then Some(Apply(s, steps[|steps| - 1])) else None
  }

  predicate Holding(pc: Pc) { pc.Locked? || pc.Unlocking? || pc.RearmLocked? || pc.Cleared? }

  ghost predicate LockInv(s: State) {
    && (s.holder.Some? ==> Holding(PcOf(s, s.holder.value)))
    && (forall t: nat :: Holding(PcOf(s, t)) ==> s.holder == Some(t))
  }

  /** The latch as the linearized order leaves it: between a re-arm's two writes the flag still stands,
      but no one can read it. */
  function Abstract(s: State): Latch {
    if s.holder.Some? && PcOf(s, s.holder.value).Cleared? then s.latch.(overflowed := false) else s.latch
  }

  /** What a thread has in the order but not yet returned. */
  function Pending(pc: Pc): seq<(Op, Option<Admission>)> {
    match pc
    case Unlocking(kind, answer) => [(AdmitOp(kind), Some(answer))]
    case Cleared => [(RearmOp, None)]
    case _ => []
  }

  function OpsOf(entries: seq<Entry>, t: nat): seq<(Op, Option<Admission>)> {
    if entries == [] then []
    else
      var last := entries[|entries| - 1];
      OpsOf(entries[..|entries| - 1], t) + if last.thread == t then [(last.op, last.admission)] else []
  }

  /** Each thread's returned calls, then its pending one, are its operations in the order, with the same
      answers: every call takes effect exactly once, between its call and its return. */
  ghost predicate OrderInv(s: State) {
    forall t: nat :: OpsOf(s.log, t) == OpsOf(s.finished, t) + Pending(PcOf(s, t))
  }

  ghost predicate Inv(s: State) {
    LockInv(s) && Replayed(s) && OrderInv(s)
  }

  lemma {:induction false} OpsOfSnoc(entries: seq<Entry>, e: Entry, t: nat)
    ensures OpsOf(entries + [e], t) == OpsOf(entries, t) + if e.thread == t then [(e.op, e.admission)] else []
  {
    assert (entries + [e])[..|entries|] == entries;
  }

  lemma {:induction false} LegalSnoc(log: seq<Entry>, e: Entry)
    requires Legal(log) && e.admission == Answer(Replay(log), e.op)
    ensures Legal(log + [e]) && Replay(log + [e]) == Next(Replay(log), e.op)
  {
    var longer := log + [e];
    assert longer[..|log|] == log;
    forall i | 0 <= i < |longer| ensures longer[i].admission == Answer(Replay(longer[..i]), longer[i].op) {
      if i < |log| { assert longer[..i] == log[..i]; }
    }
  }

  /** The one step that rests on the latch's own invariant: an unlocked look that finds nothing reported
      is a complete re-arm, because a latch with nothing reported has not overflowed. */
  lemma {:induction false} EarlyReturnIsRearm(s: State)
    requires Inv(s) && s.latch.reported == {}
    ensures Replay(s.log) == ARMED
  {
    OverflowMeansFull(s.log);
  }

  /** What a step does to the lock, and whether it leaves its own thread inside. */
  lemma {:induction false} StepHolder(s: State, step: Step)
    requires Enabled(s, step)
    ensures var s' := Apply(s, step);
            && s'.holder == (
                 if step.TakeForAdmit? || step.TakeForRearm? then Some(step.t)
                 else if step.ReturnAdmit? || step.ClearOverflow? then None
                 else s.holder)
            && (Holding(PcOf(s', step.t)) <==>
                  step.TakeForAdmit? || step.TakeForRearm? || step.Decide? || step.ClearReported?)
  {
    match step {
      case Look(_) =>
      case _ =>
    }
  }

  lemma {:induction false} OthersStay(s: State, step: Step, u: nat)
    requires Enabled(s, step) && u != step.t
    ensures PcOf(Apply(s, step), u) == PcOf(s, u)
  {
  }

  lemma {:induction false} StepKeepsLock(s: State, step: Step)
    requires LockInv(s) && Enabled(s, step)
    ensures LockInv(Apply(s, step))
  {
    var s' := Apply(s, step);
    StepHolder(s, step);
    forall u: nat | u != step.t ensures PcOf(s', u) == PcOf(s, u) { OthersStay(s, step, u); }
  }

  lemma {:induction false} StepKeepsReplay(s: State, step: Step)
    requires Inv(s) && Enabled(s, step)
    ensures Replayed(Apply(s, step))
  {
    match step {
      case Decide(t) => DecideReplays(s, t);
      case Look(t) => LookReplays(s, t);
      case ClearReported(t) => ClearReplays(s, t);
      case _ => QuietReplays(s, step);
    }
  }

  ghost predicate Replayed(s: State) { Replay(s.log) == Abstract(s) && Legal(s.log) }

  lemma {:induction false} DecideReplays(s: State, t: nat)
    requires LockInv(s) && Replayed(s) && PcOf(s, t).Locked?
    ensures Replayed(Apply(s, Decide(t)))
  {
    var op := AdmitOp(PcOf(s, t).kind);
    DecideState(s, t);
    ReplaysNext(s.log, s.latch, Entry(t, op, Answer(s.latch, op)));
  }

  lemma {:induction false} DecideState(s: State, t: nat)
    requires LockInv(s) && PcOf(s, t).Locked?
    ensures var s', op := Apply(s, Decide(t)), AdmitOp(PcOf(s, t).kind);
            && s'.log == s.log + [Entry(t, op, Answer(s.latch, op))] && Abstract(s') == Next(s.latch, op)
            && Abstract(s) == s.latch
  {
  }

  lemma {:induction false} ReplaysNext(log: seq<Entry>, l: Latch, e: Entry)
    requires Replay(log) == l && Legal(log) && e.admission == Answer(l, e.op)
    ensures Replay(log + [e]) == Next(l, e.op) && Legal(log + [e])
  {
    LegalSnoc(log, e);
  }

  lemma {:induction false} LookReplays(s: State, t: nat)
    requires Inv(s) && PcOf(s, t).Peek?
    ensures Replayed(Apply(s, Look(t)))
  {
    OutsideMoves(s, Apply(s, Look(t)), t);
    if s.latch.reported == {} {
      EarlyReturnIsRearm(s);
      LegalSnoc(s.log, Entry(t, RearmOp, None));
    }
  }

  lemma {:induction false} ClearReplays(s: State, t: nat)
    requires LockInv(s) && Replayed(s) && PcOf(s, t).RearmLocked?
    ensures Replayed(Apply(s, ClearReported(t)))
  {
    LegalSnoc(s.log, Entry(t, RearmOp, None));
  }

  /** A thread that does not hold the lock moves without disturbing what the lock's holder has done. */
  lemma {:induction false} OutsideMoves(s: State, s': State, t: nat)
    requires LockInv(s) && !Holding(PcOf(s, t)) && s'.latch == s.latch && s'.holder == s.holder
    requires s'.threads == s.threads[t := PcOf(s', t)]
    ensures Abstract(s') == Abstract(s)
  {
  }

  lemma {:induction false} QuietReplays(s: State, step: Step)
    requires LockInv(s) && Replayed(s) && Enabled(s, step)
    requires !step.Decide? && !step.Look? && !step.ClearReported?
    ensures Replayed(Apply(s, step))
  {
    if step.CallAdmit? || step.CallRearm? { OutsideMoves(s, Apply(s, step), step.t); }
  }

  lemma {:induction false} StepKeepsOrder(s: State, step: Step)
    requires Inv(s) && Enabled(s, step)
    ensures OrderInv(Apply(s, step))
  {
    forall t: nat
      ensures OpsOf(Apply(s, step).log, t) == OpsOf(Apply(s, step).finished, t) + Pending(PcOf(Apply(s, step), t)) {
      if step.t == t { OwnOrder(s, step); } else { OthersOrder(s, step, t); }
    }
  }

  lemma {:induction false} OthersOrder(s: State, step: Step, t: nat)
    requires Enabled(s, step) && step.t != t
    ensures var s' := Apply(s, step);
            PcOf(s', t) == PcOf(s, t) && OpsOf(s'.log, t) == OpsOf(s.log, t)
            && OpsOf(s'.finished, t) == OpsOf(s.finished, t)
  {
    var s' := Apply(s, step);
    OthersStay(s, step, t);
    StepLogs(s, step);
    if s'.log != s.log { OpsOfOthers(s.log, s'.log[|s.log|], t); }
    if s'.finished != s.finished { OpsOfOthers(s.finished, s'.finished[|s.finished|], t); }
  }

  lemma {:induction false} OpsOfOthers(entries: seq<Entry>, e: Entry, t: nat)
    requires e.thread != t
    ensures OpsOf(entries + [e], t) == OpsOf(entries, t)
  {
    OpsOfSnoc(entries, e, t);
  }

  /** A step adds at most one entry to each record, its own thread's. */
  lemma {:induction false} StepLogs(s: State, step: Step)
    requires Enabled(s, step)
    ensures var s' := Apply(s, step);
            && (s'.log == s.log
                || (|s'.log| == |s.log| + 1 && s'.log == s.log + [s'.log[|s.log|]] && s'.log[|s.log|].thread == step.t))
            && (s'.finished == s.finished
                || (|s'.finished| == |s.finished| + 1 && s'.finished == s.finished + [s'.finished[|s.finished|]]
                    && s'.finished[|s.finished|].thread == step.t))
  {
    match step {
      case Look(_) =>
      case _ =>
    }
  }

  ghost predicate OwnInv(log: seq<Entry>, finished: seq<Entry>, pc: Pc, t: nat) {
    OpsOf(log, t) == OpsOf(finished, t) + Pending(pc)
  }

  lemma {:induction false} OwnOrder(s: State, step: Step)
    requires Enabled(s, step) && OwnInv(s.log, s.finished, PcOf(s, step.t), step.t)
    ensures var s' := Apply(s, step); OwnInv(s'.log, s'.finished, PcOf(s', step.t), step.t)
  {
    match step {
      case Decide(t) => DecideOrders(s, t);
      case ClearReported(t) => TakesEffect(s.log, s.finished, RearmLocked, Cleared, Entry(t, RearmOp, None));
      case ReturnAdmit(t) => ReturnOrders(s, t);
      case ClearOverflow(t) => Returns(s.log, s.finished, Cleared, Idle, Entry(t, RearmOp, None));
      case Look(t) => LookOrders(s, t);
      case _ =>
    }
  }

  lemma {:induction false} DecideOrders(s: State, t: nat)
    requires PcOf(s, t).Locked? && OwnInv(s.log, s.finished, PcOf(s, t), t)
    ensures var s' := Apply(s, Decide(t)); OwnInv(s'.log, s'.finished, PcOf(s', t), t)
  {
    var kind := PcOf(s, t).kind;
    var a := Admit(s.latch, kind).admission;
    TakesEffect(s.log, s.finished, Locked(kind), Unlocking(kind, a), Entry(t, AdmitOp(kind), Some(a)));
  }

  lemma {:induction false} ReturnOrders(s: State, t: nat)
    requires PcOf(s, t).Unlocking? && OwnInv(s.log, s.finished, PcOf(s, t), t)
    ensures var s' := Apply(s, ReturnAdmit(t)); OwnInv(s'.log, s'.finished, PcOf(s', t), t)
  {
    var pc := PcOf(s, t);
    Returns(s.log, s.finished, pc, Idle, Entry(t, AdmitOp(pc.kind), Some(pc.answer)));
  }

  lemma {:induction false} LookOrders(s: State, t: nat)
    requires PcOf(s, t).Peek? && OwnInv(s.log, s.finished, Peek, t)
    ensures var s' := Apply(s, Look(t)); OwnInv(s'.log, s'.finished, PcOf(s', t), t)
  {
    var e := Entry(t, RearmOp, None);
    TakesEffect(s.log, s.finished, Peek, Cleared, e);
    Returns(s.log + [e], s.finished, Cleared, Idle, e);
  }

  /** Taking effect adds to the order what becomes pending. */
  lemma {:induction false} TakesEffect(log: seq<Entry>, finished: seq<Entry>, pc: Pc, pc': Pc, e: Entry)
    requires OwnInv(log, finished, pc, e.thread) && Pending(pc) == [] && Pending(pc') == [(e.op, e.admission)]
    ensures OwnInv(log + [e], finished, pc', e.thread)
  {
    OpsOfSnoc(log, e, e.thread);
  }

  /** Returning moves what was pending to the returned calls. */
  lemma {:induction false} Returns(log: seq<Entry>, finished: seq<Entry>, pc: Pc, pc': Pc, e: Entry)
    requires OwnInv(log, finished, pc, e.thread) && Pending(pc) == [(e.op, e.admission)] && Pending(pc') == []
    ensures OwnInv(log, finished + [e], pc', e.thread)
  {
    OpsOfSnoc(finished, e, e.thread);
  }

  /** Linearizability: in every interleaving, the calls take effect in one order, each between its own
      call and return, and each answers what the sequential latch answers in that order. */
  lemma {:induction false} Linearizable(steps: seq<Step>)
    requires Run(steps).Some?
    ensures Inv(Run(steps).value)
  {
    if steps != [] {
      var before := steps[..|steps| - 1];
      Linearizable(before);
      var s, step := Run(before).value, steps[|steps| - 1];
      StepKeepsLock(s, step);
      StepKeepsReplay(s, step);
      StepKeepsOrder(s, step);
    }
  }

  /** The order only grows. */
  lemma {:induction false} OrderOnlyGrows(steps: seq<Step>, n: nat)
    requires n <= |steps| && Run(steps).Some?
    ensures Run(steps[..n]).Some? && Run(steps[..n]).value.log <= Run(steps).value.log
  {
    if n == |steps| {
      assert steps[..n] == steps;
    } else {
      var before := steps[..|steps| - 1];
      assert before[..n] == steps[..n];
      OrderOnlyGrows(before, n);
    }
  }

  /** The calls thread `t` has made. */
  function Calls(steps: seq<Step>, t: nat): nat {
    if steps == [] then 0
    else
      var last := steps[|steps| - 1];
      Calls(steps[..|steps| - 1], t) + if (last.CallAdmit? || last.CallRearm?) && last.t == t then 1 else 0
  }

  /** Which of its thread's operations entry `i` is, counted from 0. */
  function Ordinal(log: seq<Entry>, i: nat): nat
    requires i < |log|
  {
    |OpsOf(log[..i], log[i].thread)|
  }

  /** A call made but not yet in the order. */
  function Awaiting(pc: Pc): nat {
    if pc.WantAdmit? || pc.Locked? || pc.Peek? || pc.WantRearm? || pc.RearmLocked? then 1 else 0
  }

  lemma {:induction false} CallsAreCounted(steps: seq<Step>, t: nat)
    requires Run(steps).Some?
    ensures Calls(steps, t) == |OpsOf(Run(steps).value.log, t)| + Awaiting(PcOf(Run(steps).value, t))
  {
    if steps != [] {
      var before, last := steps[..|steps| - 1], steps[|steps| - 1];
      CallsAreCounted(before, t);
      StepCounts(Run(before).value, last, t);
    }
  }

  lemma {:induction false} StepCounts(s: State, step: Step, t: nat)
    requires Enabled(s, step)
    ensures var s' := Apply(s, step);
            |OpsOf(s'.log, t)| + Awaiting(PcOf(s', t)) ==
              |OpsOf(s.log, t)| + Awaiting(PcOf(s, t))
                + if (step.CallAdmit? || step.CallRearm?) && step.t == t then 1 else 0
  {
    if step.t != t {
      OthersOrder(s, step, t);
    } else {
      var s' := Apply(s, step);
      StepLogs(s, step);
      if s'.log != s.log { OpsOfSnoc(s.log, s'.log[|s.log|], t); }
    }
  }

  lemma {:induction false} OpsOfGrows(log: seq<Entry>, m: nat, n: nat, t: nat)
    requires m <= n <= |log|
    ensures |OpsOf(log[..m], t)| <= |OpsOf(log[..n], t)|
  {
    if m < n {
      OpsOfGrows(log, m, n - 1, t);
      assert log[..n] == log[..n - 1] + [log[n - 1]];
      OpsOfSnoc(log[..n - 1], log[n - 1], t);
    }
  }

  /** The order is one of real time: a call that had returned by step `n` stands before every call made after
      it. `i` is its entry - among as many of its thread's as had returned - and `j` the other's - past as many
      of its thread's as had been made. */
  lemma {:induction false} OrderRespectsTime(steps: seq<Step>, n: nat, i: nat, j: nat)
    requires n <= |steps| && Run(steps).Some? && Run(steps[..n]).Some?
    requires var log := Run(steps).value.log;
             && i < |log| && Ordinal(log, i) < |OpsOf(Run(steps[..n]).value.finished, log[i].thread)|
             && j < |log| && Ordinal(log, j) >= Calls(steps[..n], log[j].thread)
    ensures i < |Run(steps[..n]).value.log| <= j
  {
    var s, log := Run(steps[..n]).value, Run(steps).value.log;
    OrderOnlyGrows(steps, n);
    Linearizable(steps[..n]);
    CallsAreCounted(steps[..n], log[j].thread);
    assert log[..|s.log|] == s.log;
    assert |OpsOf(s.log, log[i].thread)| >= |OpsOf(s.finished, log[i].thread)|;
    if |s.log| <= i { OpsOfGrows(log, |s.log|, i, log[i].thread); }
    if j < |s.log| { EntryCounts(log, j, |s.log|); }
  }

  lemma {:induction false} EntryCounts(log: seq<Entry>, j: nat, n: nat)
    requires j < n <= |log|
    ensures Ordinal(log, j) < |OpsOf(log[..n], log[j].thread)|
  {
    assert log[..j + 1] == log[..j] + [log[j]];
    OpsOfSnoc(log[..j], log[j], log[j].thread);
    OpsOfGrows(log, j + 1, n, log[j].thread);
  }

  /** In every interleaving each admission answers what is due after the calls before it in the order. */
  lemma {:induction false} EveryAnswerIsDue(steps: seq<Step>, i: nat)
    requires Run(steps).Some? && i < |Run(steps).value.log| && Run(steps).value.log[i].op.AdmitOp?
    ensures var log := Run(steps).value.log; log[i].admission == Some(Due(Kinds(log[..i]), log[i].op.kind))
  {
    var log := Run(steps).value.log;
    Linearizable(steps);
    AnswersAreDue(log[..i], log[i].op.kind);
  }

  /** So in every interleaving the sequential bounds hold: an overflowed latch is full unless a re-arm is
      halfway through clearing it, and at most eight kinds were reported since the last re-arm. */
  lemma {:induction false} InterleavedBounds(steps: seq<Step>)
    requires Run(steps).Some?
    ensures var s := Run(steps).value;
            && |s.latch.reported| <= MAX_REPORTED_KINDS
            && (Abstract(s).overflowed ==> |s.latch.reported| == MAX_REPORTED_KINDS)
            && |Reports(s.log)| <= MAX_REPORTED_KINDS && Notices(s.log) <= 1
            && forall i, j :: 0 <= i < j < |Reports(s.log)| ==> Reports(s.log)[i] != Reports(s.log)[j]
  {
    Linearizable(steps);
    OverflowMeansFull(Run(steps).value.log);
    ReportsAreBounded(Run(steps).value.log);
  }
}
