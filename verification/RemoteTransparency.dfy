/** The negative cache is transparent: against an upstream that answers and never revives a cookie, a
    verifier with it and one without it refuse and accept alike, call by call. */
module RemoteTransparency {
  import opened Wrappers
  import opened Throttle
  import opened RemoteResponse
  import opened RemoteVerifier
  import opened RemoteRuns
  import Cache = NegativeCache

  /** One `verify` call run to its end: the request, the instants its stretches read the clock at, and what
      upstream would answer if asked - to the two probe requests and to get-session. */
  datatype Visit = Visit(
    req: Request, calledAt: Time, lockedAt: Time, answeredAt: Time, wall: real,
    bare: Transported, bearer: Transported, answer: Response)

  datatype Served = Served(gate: Gate, outcome: Outcome)

  function Fetch(cfg: Config, g: Gate, a: Admitted, v: Visit): Served
    requires cfg.limits.max >= 1
  {
    var settled := Settle(cfg, g, a, Answered(v.answer), v.answeredAt, v.wall);
    Served(settled.gate, settled.outcome)
  }

  /** The probe's two requests, the second only after the first passed. */
  function ProbeOutcome(cfg: Config, v: Visit): Verdict {
    if NullContract(v.bare).More? then BearerRung(v.bearer, cfg.refuseUnsignedBearer) else NullContract(v.bare)
  }

  function Serve(cfg: Config, g: Gate, v: Visit): Served
    requires cfg.limits.max >= 1
  {
    ServeChecked(cfg, g, Precheck(cfg, v.req), v)
  }

  function ServeChecked(cfg: Config, g: Gate, checked: Result<Admitted, Refusal>, v: Visit): Served
    requires cfg.limits.max >= 1
  {
    var started := Gated(cfg, g, checked, v.calledAt);
    match started.begun
    case Stop(r) => Served(started.gate, Refused(r))
    case Proceed(a) => Fetch(cfg, started.gate, a, v)
    case NeedLock(a) => ServeLocked(cfg, started.gate, a, v)
  }

  function ServeLocked(cfg: Config, g: Gate, a: Admitted, v: Visit): Served
    requires cfg.limits.max >= 1
  {
    match UnderLock(g, v.lockedAt)
    case Ready => Fetch(cfg, g, a, v)
    case Raise(r) => Served(g, Refused(r))
    case Probe(stamped, _) => ServeProbed(cfg, stamped, a, v)
  }

  function ServeProbed(cfg: Config, g: Gate, a: Admitted, v: Visit): Served
    requires cfg.limits.max >= 1
  {
    match ProbeOutcome(cfg, v)
    case Contract => Served(Concluded(g, Contract), Refused(ConfigurationError))
    case Unreached(r) => Served(g, Refused(r))
    case _ => Fetch(cfg, Concluded(g, Passed), a, v)
  }

  /** The verifier after `visits`, from a shut gate. */
  function GateAfter(cfg: Config, visits: seq<Visit>): Gate
    requires cfg.limits.max >= 1
  {
    if visits == [] then SHUT
    else Serve(cfg, GateAfter(cfg, visits[..|visits| - 1]), visits[|visits| - 1]).gate
  }

  function OutcomeOf(cfg: Config, visits: seq<Visit>): Outcome
    requires cfg.limits.max >= 1 && visits != []
  {
    Serve(cfg, GateAfter(cfg, visits[..|visits| - 1]), visits[|visits| - 1]).outcome
  }

  /** The same verifier with `negative_ttl=0`. */
  function Uncached(cfg: Config): Config { cfg.(limits := cfg.limits.(ttl := 0.0)) }

  predicate AlwaysAnswers(visits: seq<Visit>) {
    forall i :: 0 <= i < |visits| ==> visits[i].answer.status == 200
  }

  predicate SameMaterial(cfg: Config, v: Visit, w: Visit) {
    var a, b := Precheck(cfg, v.req), Precheck(cfg, w.req);
    a.Ok? && b.Ok? && a.value.material == b.value.material
  }

  /** Once a cookie was answered `null`, it is answered `null` for good. */
  ghost predicate NeverRevives(cfg: Config, visits: seq<Visit>) {
    forall i, j :: 0 <= i < j < |visits| && SameMaterial(cfg, visits[i], visits[j]) ==>
      IsCacheableNull(visits[i].answer) ==> IsCacheableNull(visits[j].answer)
  }

  /** The digest a visit's cookie is filed under, if its request passes the local checks. */
  function KeyOf(cfg: Config, v: Visit): Option<Cache.Key> {
    match Precheck(cfg, v.req)
    case Err(_) => None
    case Ok(a) => Some(cfg.digest(a.material))
  }

  /** The digest tells apart the cookies of this run. */
  ghost predicate NoCollision(cfg: Config, visits: seq<Visit>) {
    forall i, j :: 0 <= i < j < |visits| ==>
      KeyOf(cfg, visits[i]).Some? && KeyOf(cfg, visits[i]) == KeyOf(cfg, visits[j]) ==>
        SameMaterial(cfg, visits[i], visits[j])
  }

  ghost predicate NullUnder(cfg: Config, v: Visit, key: Cache.Key) {
    IsCacheableNull(v.answer) && KeyOf(cfg, v) == Some(key)
  }

  /** Some visit so far asked about `key` and was answered `null`. */
  ghost predicate Dead(cfg: Config, visits: seq<Visit>, key: Cache.Key) {
    exists i :: 0 <= i < |visits| && NullUnder(cfg, visits[i], key)
  }

  /** The two verifiers differ in their caches alone; one holds nothing, the other only dead cookies, and
      those only once the probe has passed. Neither is ever latched. */
  ghost predicate Alike(cfg: Config, visits: seq<Visit>, g: Gate, g0: Gate) {
    && SameButCaches(g, g0) && g.cache.Valid()
    && (forall key :: g.cache.Has(key) ==> Dead(cfg, visits, key) && g.probedOk)
  }

  // ---- one visit

  ghost predicate SameButCaches(g: Gate, g0: Gate) { g0 == g.(cache := g0.cache) && g.blockedUntil == None }

  /** What upstream's answer leaves in the cache. */
  function Learned(cfg: Config, entries: Cache.Entries, a: Admitted, v: Visit): Cache.Entries
    requires cfg.limits.max >= 1
  {
    if IsCacheableNull(v.answer) then Cache.Remember(cfg.limits, entries, cfg.digest(a.material), v.answeredAt)
    else entries
  }

  lemma {:induction false} FetchAlike(cfg: Config, g: Gate, g0: Gate, a: Admitted, v: Visit)
    requires cfg.limits.max >= 1 && v.answer.status == 200 && SameButCaches(g, g0)
    ensures var f, f0 := Fetch(cfg, g, a, v), Fetch(Uncached(cfg), g0, a, v);
            && f.outcome == f0.outcome && SameButCaches(f.gate, f0.gate)
            && f.gate == g.(cache := Learned(cfg, g.cache, a, v))
  {
  }

  /** Two visits that came out the same: the outcome, every field but the cache, and of the cache only what
      was looked up dropped or what was answered learned. */
  ghost predicate Matched(cfg: Config, g: Gate, kept: Cache.Entries, a: Admitted, v: Visit, f: Served, f0: Served)
    requires cfg.limits.max >= 1
  {
    && f.outcome == f0.outcome && SameButCaches(f.gate, f0.gate)
    && (g.probedOk ==> f.gate.probedOk)
    && (f.gate.cache == kept || (f.gate.probedOk && f.gate.cache == Learned(cfg, kept, a, v)))
  }

  /** Past the cache both verifiers do the same. */
  lemma {:induction false} MissAlike(cfg: Config, g: Gate, g0: Gate, a: Admitted, v: Visit)
    requires cfg.limits.max >= 1 && v.answer.status == 200 && SameButCaches(g, g0)
    requires !Cache.Holds(cfg.limits, g.cache, cfg.digest(a.material), v.calledAt).held
    ensures var kept := Cache.Holds(cfg.limits, g.cache, cfg.digest(a.material), v.calledAt).entries;
            Matched(cfg, g, kept, a, v, ServeChecked(cfg, g, Ok(a), v), ServeChecked(Uncached(cfg), g0, Ok(a), v))
  {
    var kept := Cache.Holds(cfg.limits, g.cache, cfg.digest(a.material), v.calledAt).entries;
    var g1 := g.(cache := kept);
    MissPassesGates(cfg, g, a, v.calledAt);
    MissPassesGates(Uncached(cfg), g0, a, v.calledAt);
    if g.probedOk {
      FetchAlike(cfg, g1, g0, a, v);
    } else if !g.contractFailed {
      LockAlike(cfg, g1, g0, a, v);
    }
  }

  lemma {:induction false} MissPassesGates(cfg: Config, g: Gate, a: Admitted, now: Time)
    requires g.blockedUntil == None && !Cache.Holds(cfg.limits, g.cache, cfg.digest(a.material), now).held
    ensures var g1 := g.(cache := Cache.Holds(cfg.limits, g.cache, cfg.digest(a.material), now).entries);
            Gated(cfg, g, Ok(a), now) == Started(g1,
              if g.probedOk then Proceed(a) else if g.contractFailed then Stop(ConfigurationError) else NeedLock(a))
  {
  }

  lemma {:induction false} LockAlike(cfg: Config, g: Gate, g0: Gate, a: Admitted, v: Visit)
    requires cfg.limits.max >= 1 && v.answer.status == 200 && SameButCaches(g, g0)
    ensures Matched(cfg, g, g.cache, a, v, ServeLocked(cfg, g, a, v), ServeLocked(Uncached(cfg), g0, a, v))
  {
    var locked := UnderLock(g, v.lockedAt);
    match locked {
      case Ready => FetchAlike(cfg, g, g0, a, v);
      case Raise(_) =>
      case Probe(stamped, _) => ProbeAlike(cfg, stamped, g0.(probeAttemptedAt := Some(v.lockedAt)), a, v);
    }
  }

  lemma {:induction false} ProbeAlike(cfg: Config, g: Gate, g0: Gate, a: Admitted, v: Visit)
    requires cfg.limits.max >= 1 && v.answer.status == 200 && SameButCaches(g, g0)
    ensures Matched(cfg, g, g.cache, a, v, ServeProbed(cfg, g, a, v), ServeProbed(Uncached(cfg), g0, a, v))
  {
    assert ProbeOutcome(Uncached(cfg), v) == ProbeOutcome(cfg, v);
    match ProbeOutcome(cfg, v) {
      case Contract =>
      case Unreached(_) =>
      case _ => FetchAlike(cfg, Concluded(g, Passed), Concluded(g0, Passed), a, v);
    }
  }

  /** On a hit the uncached verifier asks, and is told `null`: the same refusal. */
  lemma {:induction false} HitAlike(cfg: Config, g: Gate, g0: Gate, a: Admitted, v: Visit)
    requires cfg.limits.max >= 1 && SameButCaches(g, g0) && g.probedOk
    requires Cache.Holds(cfg.limits, g.cache, cfg.digest(a.material), v.calledAt).held
    requires IsCacheableNull(v.answer)
    ensures var f, f0 := ServeChecked(cfg, g, Ok(a), v), ServeChecked(Uncached(cfg), g0, Ok(a), v);
            && f.outcome == f0.outcome == Refused(NullOutcome(a.verified))
            && f.gate == g && f0.gate == g0
  {
    CacheableExactlyWhenNullOutcome(v.answer, a.verified);
  }

  lemma {:induction false} DeadStands(cfg: Config, visits: seq<Visit>, key: Cache.Key)
    requires visits != [] && Dead(cfg, visits[..|visits| - 1], key)
    ensures Dead(cfg, visits, key)
  {
    var i := DeadIndex(cfg, visits, visits[..|visits| - 1], key);
    assert NullUnder(cfg, visits[i], key);
  }

  lemma {:induction false} DeadIndex(cfg: Config, visits: seq<Visit>, before: seq<Visit>, key: Cache.Key)
      returns (i: nat)
    requires before <= visits && Dead(cfg, before, key)
    ensures i < |before| && NullUnder(cfg, visits[i], key)
  {
    i := NullIndex(cfg, before, key);
    SameNull(cfg, before[i], visits[i], key);
  }

  lemma {:induction false} NullIndex(cfg: Config, visits: seq<Visit>, key: Cache.Key) returns (i: nat)
    requires Dead(cfg, visits, key)
    ensures i < |visits| && NullUnder(cfg, visits[i], key)
  {
    i :| 0 <= i < |visits| && NullUnder(cfg, visits[i], key);
  }

  lemma {:induction false} SameNull(cfg: Config, v: Visit, w: Visit, key: Cache.Key)
    requires v == w && NullUnder(cfg, v, key)
    ensures NullUnder(cfg, w, key)
  {
  }

  /** A dead cookie presented again is answered `null`. */
  lemma {:induction false} DeadStaysDead(cfg: Config, visits: seq<Visit>, i: nat, j: nat, key: Cache.Key)
    requires i < j < |visits| && NeverRevives(cfg, visits) && NoCollision(cfg, visits)
    requires NullUnder(cfg, visits[i], key) && KeyOf(cfg, visits[j]) == Some(key)
    ensures IsCacheableNull(visits[j].answer)
  {
    assert KeyOf(cfg, visits[i]) == KeyOf(cfg, visits[j]);
    assert SameMaterial(cfg, visits[i], visits[j]);
  }

  /** Remembering one dead cookie leaves only dead cookies. */
  lemma {:induction false} RememberedAreDead(
      cfg: Config, visits: seq<Visit>, entries: Cache.Entries, key: Cache.Key, now: Time)
    requires cfg.limits.max >= 1 && entries.Valid() && Dead(cfg, visits, key)
    requires forall k :: entries.Has(k) ==> Dead(cfg, visits, k)
    ensures forall k :: Cache.Remember(cfg.limits, entries, key, now).Has(k) ==> Dead(cfg, visits, k)
  {
    forall k | Cache.Remember(cfg.limits, entries, key, now).Has(k) ensures Dead(cfg, visits, k) {
      Cache.ApplyKeepsStamps(cfg.limits, entries, Cache.Learn(key, now), k);
    }
  }

  lemma {:induction false} VisitAlike(cfg: Config, visits: seq<Visit>, g: Gate, g0: Gate,
                                      checked: Result<Admitted, Refusal>)
    requires cfg.limits.max >= 1 && visits != []
    requires AlwaysAnswers(visits) && NeverRevives(cfg, visits) && NoCollision(cfg, visits)
    requires Alike(cfg, visits[..|visits| - 1], g, g0) && checked == Precheck(cfg, visits[|visits| - 1].req)
    ensures var v := visits[|visits| - 1];
            var f, f0 := ServeChecked(cfg, g, checked, v), ServeChecked(Uncached(cfg), g0, checked, v);
            f.outcome == f0.outcome && Alike(cfg, visits, f.gate, f0.gate)
  {
    var n := |visits| - 1;
    var v := visits[n];
    forall key | g.cache.Has(key) ensures Dead(cfg, visits, key) { DeadStands(cfg, visits, key); }
    if checked.Ok? {
      var a := checked.value;
      var key := cfg.digest(a.material);
      if Cache.Holds(cfg.limits, g.cache, key, v.calledAt).held {
        var i := DeadIndex(cfg, visits, visits[..n], key);
        DeadStaysDead(cfg, visits, i, n, key);
        HitAlike(cfg, g, g0, a, v);
      } else {
        MissAlike(cfg, g, g0, a, v);
        MissLeavesDead(cfg, visits, g, a);
      }
    }
  }

  lemma {:induction false} MissLeavesDead(cfg: Config, visits: seq<Visit>, g: Gate, a: Admitted)
    requires cfg.limits.max >= 1 && visits != [] && g.cache.Valid()
    requires Precheck(cfg, visits[|visits| - 1].req) == Ok(a)
    requires forall k :: g.cache.Has(k) ==> Dead(cfg, visits, k)
    ensures var v := visits[|visits| - 1];
            var kept := Cache.Holds(cfg.limits, g.cache, cfg.digest(a.material), v.calledAt).entries;
            && kept.Valid() && (forall k :: kept.Has(k) ==> g.cache.Has(k))
            && Learned(cfg, kept, a, v).Valid()
            && (forall k :: Learned(cfg, kept, a, v).Has(k) ==> Dead(cfg, visits, k))
  {
    var v, key := visits[|visits| - 1], cfg.digest(a.material);
    var kept := Cache.Holds(cfg.limits, g.cache, key, v.calledAt).entries;
    HeldSubset(cfg.limits, g.cache, key, v.calledAt);
    if IsCacheableNull(v.answer) {
      assert NullUnder(cfg, v, key);
      RememberedAreDead(cfg, visits, kept, key, v.answeredAt);
    }
  }

  lemma {:induction false} HeldSubset(limits: Cache.Limits, entries: Cache.Entries, key: Cache.Key, now: Time)
    requires entries.Valid()
    ensures Cache.Holds(limits, entries, key, now).entries.Valid()
    ensures forall k :: Cache.Holds(limits, entries, key, now).entries.Has(k) ==> entries.Has(k)
  {
  }

  // ---- every run

  lemma {:induction false} RunsAlike(cfg: Config, visits: seq<Visit>)
    requires cfg.limits.max >= 1
    requires AlwaysAnswers(visits) && NeverRevives(cfg, visits) && NoCollision(cfg, visits)
    ensures Alike(cfg, visits, GateAfter(cfg, visits), GateAfter(Uncached(cfg), visits))
    ensures visits != [] ==> OutcomeOf(cfg, visits) == OutcomeOf(Uncached(cfg), visits)
  {
    if visits != [] {
      var n := |visits| - 1;
      RunsAlike(cfg, visits[..n]);
      LocalChecksIgnoreTtl(cfg, visits[n].req);
      VisitAlike(cfg, visits, GateAfter(cfg, visits[..n]), GateAfter(Uncached(cfg), visits[..n]),
                 Precheck(cfg, visits[n].req));
    }
  }

  lemma {:induction false} LocalChecksIgnoreTtl(cfg: Config, req: Request)
    ensures Precheck(Uncached(cfg), req) == Precheck(cfg, req)
  {
  }

  /** At any clock readings, each of any calls made one after another gives the same session or the same
      refusal class with the negative cache as without it. */
  lemma {:induction false} CacheIsTransparent(cfg: Config, visits: seq<Visit>, i: nat)
    requires cfg.limits.max >= 1 && i < |visits|
    requires AlwaysAnswers(visits) && NeverRevives(cfg, visits) && NoCollision(cfg, visits)
    ensures OutcomeOf(cfg, visits[..i + 1]) == OutcomeOf(Uncached(cfg), visits[..i + 1])
  {
    var prefix := visits[..i + 1];
    assert forall k :: 0 <= k < |prefix| ==> prefix[k] == visits[k];
    RunsAlike(cfg, prefix);
  }

  // ---- a visit is a run

  lemma {:induction false} Extend(cfg: Config, events: seq<Event>, step: Step, at: Time) returns (after: seq<Event>)
    requires cfg.limits.max >= 1 && Run(cfg, events).Some? && Enabled(cfg, Run(cfg, events).value, step, at)
    ensures Run(cfg, after) == Some(Apply(cfg, Run(cfg, events).value, step, at))
  {
    after := events + [Event(step, at)];
    assert after[..|events|] == events;
  }

  ghost predicate Idle(cfg: Config, s: State) { s.lock == None && s.borrowers == {} && cfg.concurrency >= 1 }

  /** The state shows task `t` done, as `served`. */
  ghost predicate DoneAs(s: State, t: Task, served: Served) {
    s.gate == served.gate && t in s.tasks && s.tasks[t] == Finished(served.outcome)
  }

  lemma {:induction false} AloneFetches(cfg: Config, events: seq<Event>, t: Task, a: Admitted, v: Visit)
      returns (after: seq<Event>)
    requires cfg.limits.max >= 1 && Run(cfg, events).Some?
    requires var s := Run(cfg, events).value;
             Idle(cfg, s) && s.now <= v.answeredAt && t in s.tasks && s.tasks[t] == AwaitSlot(a)
    ensures Run(cfg, after).Some?
    ensures DoneAs(Run(cfg, after).value, t, Fetch(cfg, Run(cfg, events).value.gate, a, v))
  {
    after := Extend(cfg, events, SlotGranted(t), v.answeredAt);
    after := Extend(cfg, after, FetchAnswered(t, Answered(v.answer), v.wall), v.answeredAt);
  }

  lemma {:induction false} AloneProbes(cfg: Config, events: seq<Event>, t: Task, a: Admitted, v: Visit)
      returns (after: seq<Event>)
    requires cfg.limits.max >= 1 && Run(cfg, events).Some?
    requires var s := Run(cfg, events).value;
             && s.lock == Some(t) && s.borrowers == {} && cfg.concurrency >= 1 && s.now <= v.lockedAt <= v.answeredAt
             && t in s.tasks && s.tasks[t].ProbingNull? && s.tasks[t].job == Verify(a)
    ensures Run(cfg, after).Some?
    ensures DoneAs(Run(cfg, after).value, t, ServeProbed(cfg, Run(cfg, events).value.gate, a, v))
  {
    after := Extend(cfg, events, ProbeAnswered(t, v.bare), v.lockedAt);
    if NullContract(v.bare).More? { after := AloneBearer(cfg, after, t, a, v); }
  }

  lemma {:induction false} AloneBearer(cfg: Config, events: seq<Event>, t: Task, a: Admitted, v: Visit)
      returns (after: seq<Event>)
    requires cfg.limits.max >= 1 && Run(cfg, events).Some? && NullContract(v.bare).More?
    requires var s := Run(cfg, events).value;
             && s.lock == Some(t) && s.borrowers == {} && cfg.concurrency >= 1 && s.now <= v.lockedAt <= v.answeredAt
             && t in s.tasks && s.tasks[t].ProbingBearer? && s.tasks[t].job == Verify(a)
    ensures Run(cfg, after).Some?
    ensures DoneAs(Run(cfg, after).value, t, ServeProbed(cfg, Run(cfg, events).value.gate, a, v))
  {
    BearerEnds(cfg, Run(cfg, events).value, t, a, v.bearer, v.lockedAt);
    after := Extend(cfg, events, ProbeAnswered(t, v.bearer), v.lockedAt);
    if ProbeOutcome(cfg, v).Passed? { after := AloneFetches(cfg, after, t, a, v); }
  }

  lemma {:induction false} BearerEnds(cfg: Config, s: State, t: Task, a: Admitted, result: Transported, now: Time)
    requires t in s.tasks && s.tasks[t].ProbingBearer? && s.tasks[t].job == Verify(a)
    ensures var s', verdict := ProbeStep(cfg, s, t, result, now), BearerRung(result, cfg.refuseUnsignedBearer);
            && !verdict.More? && s'.gate == Concluded(s.gate, verdict)
            && s'.lock == None && s'.borrowers == s.borrowers && s'.now == now
            && s'.tasks[t] ==
                 if verdict.Passed? then AwaitSlot(a)
                 else Finished(Refused(if verdict.Contract? then ConfigurationError else verdict.refusal))
  {
  }

  /** A visit is one way a lone `verify` runs in the interleaved system: same gate, same outcome. */
  lemma {:induction false} VisitIsARun(cfg: Config, events: seq<Event>, t: Task, v: Visit) returns (after: seq<Event>)
    requires cfg.limits.max >= 1 && Run(cfg, events).Some?
    requires var s := Run(cfg, events).value;
             Idle(cfg, s) && t !in s.tasks && s.now <= v.calledAt <= v.lockedAt <= v.answeredAt
    ensures Run(cfg, after).Some?
    ensures DoneAs(Run(cfg, after).value, t, Serve(cfg, Run(cfg, events).value.gate, v))
  {
    var started := Gated(cfg, Run(cfg, events).value.gate, Precheck(cfg, v.req), v.calledAt);
    after := Extend(cfg, events, CallVerify(t, v.req), v.calledAt);
    match started.begun {
      case Stop(_) =>
      case Proceed(a) => after := AloneFetches(cfg, after, t, a, v);
      case NeedLock(a) =>
        var called := after;
        after := Extend(cfg, called, LockGranted(t), v.lockedAt);
        match UnderLock(started.gate, v.lockedAt) {
          case Ready => after := AloneFetches(cfg, after, t, a, v);
          case Raise(_) =>
          case Probe(_, _) => after := AloneProbes(cfg, after, t, a, v);
        }
    }
  }

  // ---- the condition

  /** The second of two visits brings back, alive, the cookie the first was told `null` about, having passed
      the probe. */
  ghost predicate Revived(cfg: Config, visits: seq<Visit>, a: Admitted, b: Admitted, record: Record) {
    && |visits| == 2 && a.material == b.material
    && Precheck(cfg, visits[0].req) == Ok(a) && Precheck(cfg, visits[1].req) == Ok(b)
    && ProbeOutcome(cfg, visits[0]).Passed? && IsCacheableNull(visits[0].answer)
    && visits[1].answer.status == 200 && IsJson(visits[1].answer) && visits[1].answer.body == Document(record)
    && SessionFrom(record, b.token, visits[1].wall) == Session(record)
  }

  /** The condition is needed, exactly: a cookie answered `null` and then revived is refused by the cache, where
      the uncached verifier lets its session through, for as long as the TTL and no longer. */
  lemma {:induction false} RevivalIsHiddenExactly(
      cfg: Config, visits: seq<Visit>, a: Admitted, b: Admitted, record: Record)
    requires cfg.limits.max >= 1 && cfg.limits.ttl > 0.0 && Revived(cfg, visits, a, b, record)
    ensures OutcomeOf(Uncached(cfg), visits) == Session(record)
    ensures OutcomeOf(cfg, visits) ==
      if visits[1].calledAt - visits[0].answeredAt < cfg.limits.ttl
      then Refused(NullOutcome(b.verified)) else Session(record)
  {
    LocalChecksIgnoreTtl(cfg, visits[0].req);
    LocalChecksIgnoreTtl(cfg, visits[1].req);
    RevivedOutcome(cfg, visits, a, b, record);
    RevivedOutcome(Uncached(cfg), visits, a, b, record);
  }

  lemma {:induction false} RevivedOutcome(cfg: Config, visits: seq<Visit>, a: Admitted, b: Admitted, record: Record)
    requires cfg.limits.max >= 1 && Revived(cfg, visits, a, b, record)
    ensures OutcomeOf(cfg, visits) ==
      if visits[1].calledAt - visits[0].answeredAt < cfg.limits.ttl && cfg.limits.ttl > 0.0
      then Refused(NullOutcome(b.verified)) else Session(record)
  {
    FirstVisit(cfg, visits[0], a);
    AfterTwo(cfg, visits);
    SecondVisit(cfg, GateAfter(cfg, visits[..1]), b, visits[1], record);
    RememberedFirst(cfg.limits, cfg.digest(a.material), visits[0].answeredAt, visits[1].calledAt);
  }

  lemma {:induction false} AfterTwo(cfg: Config, visits: seq<Visit>)
    requires cfg.limits.max >= 1 && |visits| == 2
    ensures visits[..1] == [visits[0]]
    ensures OutcomeOf(cfg, visits) == Serve(cfg, GateAfter(cfg, visits[..1]), visits[1]).outcome
  {
  }

  lemma {:induction false} AfterOne(cfg: Config, v: Visit)
    requires cfg.limits.max >= 1
    ensures GateAfter(cfg, [v]) == Serve(cfg, SHUT, v).gate
  {
    assert [v][..0] == [];
  }

  lemma {:induction false} FirstVisit(cfg: Config, v: Visit, a: Admitted)
    requires cfg.limits.max >= 1 && Precheck(cfg, v.req) == Ok(a)
    requires ProbeOutcome(cfg, v).Passed? && IsCacheableNull(v.answer)
    ensures GateAfter(cfg, [v]) == SHUT.(
      probedOk := true, probeAttemptedAt := Some(v.lockedAt),
      cache := Cache.Remember(cfg.limits, SHUT.cache, cfg.digest(a.material), v.answeredAt))
  {
    AfterOne(cfg, v);
    FirstServed(cfg, v, a);
    FirstFetch(cfg, SHUT.(probedOk := true, probeAttemptedAt := Some(v.lockedAt)), a, v);
  }

  lemma {:induction false} FirstServed(cfg: Config, v: Visit, a: Admitted)
    requires cfg.limits.max >= 1 && Precheck(cfg, v.req) == Ok(a) && ProbeOutcome(cfg, v).Passed?
    ensures Serve(cfg, SHUT, v) == Fetch(cfg, SHUT.(probedOk := true, probeAttemptedAt := Some(v.lockedAt)), a, v)
  {
    ShutGate(cfg, a, v.calledAt);
    LockedServed(cfg, SHUT, a, v);
  }

  lemma {:induction false} LockedServed(cfg: Config, g: Gate, a: Admitted, v: Visit)
    requires cfg.limits.max >= 1 && ProbeOutcome(cfg, v).Passed?
    requires !g.probedOk && !g.contractFailed && g.probeAttemptedAt == None
    ensures ServeLocked(cfg, g, a, v) == Fetch(cfg, g.(probedOk := true, probeAttemptedAt := Some(v.lockedAt)), a, v)
  {
    ProbedServed(cfg, g.(probeAttemptedAt := Some(v.lockedAt)), a, v);
  }

  lemma {:induction false} ProbedServed(cfg: Config, g: Gate, a: Admitted, v: Visit)
    requires cfg.limits.max >= 1 && ProbeOutcome(cfg, v).Passed?
    ensures ServeProbed(cfg, g, a, v) == Fetch(cfg, g.(probedOk := true), a, v)
  {
  }

  lemma {:induction false} ShutGate(cfg: Config, a: Admitted, now: Time)
    ensures Gated(cfg, SHUT, Ok(a), now) == Started(SHUT, NeedLock(a))
  {
  }

  lemma {:induction false} FirstFetch(cfg: Config, g: Gate, a: Admitted, v: Visit)
    requires cfg.limits.max >= 1 && IsCacheableNull(v.answer)
    ensures Fetch(cfg, g, a, v).gate
         == g.(cache := Cache.Remember(cfg.limits, g.cache, cfg.digest(a.material), v.answeredAt))
  {
  }

  lemma {:induction false} RememberedFirst(limits: Cache.Limits, key: Cache.Key, at: Time, now: Time)
    requires limits.max >= 1
    ensures Cache.Holds(limits, Cache.Remember(limits, SHUT.cache, key, at), key, now).held <==>
      limits.ttl > 0.0 && now - at < limits.ttl
  {
  }

  lemma {:induction false} SecondVisit(cfg: Config, g: Gate, a: Admitted, w: Visit, record: Record)
    requires cfg.limits.max >= 1 && g.probedOk && g.blockedUntil == None && Precheck(cfg, w.req) == Ok(a)
    requires w.answer.status == 200 && IsJson(w.answer) && w.answer.body == Document(record)
    requires SessionFrom(record, a.token, w.wall) == Session(record)
    ensures Serve(cfg, g, w).outcome ==
      if Cache.Holds(cfg.limits, g.cache, cfg.digest(a.material), w.calledAt).held then Refused(NullOutcome(a.verified))
      else Session(record)
  {
    if !Cache.Holds(cfg.limits, g.cache, cfg.digest(a.material), w.calledAt).held {
      MissPassesGates(cfg, g, a, w.calledAt);
    }
  }
}
