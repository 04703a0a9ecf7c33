/** What every outbound get-session call owes to the steps before it, in every interleaving: its slot, its
    request's own gates, and the answers the negative cache repeats. */
module RemoteCalls {
  import opened Wrappers
  import opened RemoteResponse
  import opened RemoteVerifier
  import opened RemoteRuns
  import opened Throttle
  import Cache = NegativeCache
  import Backoffs = BackoffLatch

  // ---- slots

  function Count(log: seq<Happening>, h: Happening): nat {
    if log == [] then 0 else Count(log[..|log| - 1], h) + if log[|log| - 1] == h then 1 else 0
  }

  lemma {:induction false} CountSnoc(log: seq<Happening>, last: Happening, h: Happening)
    ensures Count(log + [last], h) == Count(log, h) + if last == h then 1 else 0
  {
    assert (log + [last])[..|log|] == log;
  }

  predicate Ended(pc: Pc) { pc.Finished? || pc.Prepared? || pc.Gone? }

  /** A task's slot traffic, by where the task is: nothing before its fetch, one slot out during it, and
      afterwards as many returned as taken, one at most. */
  ghost predicate Balanced(s: State, t: Task) {
    var taken, released := Count(s.log, SlotTaken(t)), Count(s.log, SlotReleased(t));
    if t !in s.tasks then taken == 0 && released == 0
    else if s.tasks[t].InFlight? then taken == 1 && released == 0
    else if Ended(s.tasks[t]) then taken == released <= 1
    else taken == 0 && released == 0
  }

  ghost predicate SlotInv(cfg: Config, s: State) {
    && |s.borrowers| <= cfg.concurrency
    && (forall t :: t in s.borrowers <==> t in s.tasks && s.tasks[t].InFlight?)
    && (forall t: Task :: Balanced(s, t))
  }

  /** A step that moves one task between places without a slot, and logs nothing about slots. */
  lemma {:induction false} SlotlessStepKeeps(cfg: Config, s: State, s': State, t: Task)
    requires SlotInv(cfg, s) && s'.borrowers == s.borrowers
    requires t in s'.tasks && s'.tasks == s.tasks[t := s'.tasks[t]] && !s'.tasks[t].InFlight?
    requires t in s.tasks ==> !s.tasks[t].InFlight? && !Ended(s.tasks[t])
    requires s'.log == s.log || s'.log == s.log + [ProbePassed] || s'.log == s.log + [ContractFailed]
    ensures SlotInv(cfg, s')
  {
    forall u: Task ensures Balanced(s', u) {
      assert Balanced(s, u);
      if s'.log != s.log {
        CountSnoc(s.log, s'.log[|s.log|], SlotTaken(u));
        CountSnoc(s.log, s'.log[|s.log|], SlotReleased(u));
      }
    }
  }

  lemma {:induction false} TakingKeeps(cfg: Config, s: State, t: Task, now: Time)
    requires SlotInv(cfg, s) && Enabled(cfg, s, SlotGranted(t), now)
    ensures SlotInv(cfg, SlotStep(s, t, now))
  {
    var s' := SlotStep(s, t, now);
    assert t !in s.borrowers;
    forall u: Task ensures Balanced(s', u) {
      assert Balanced(s, u) && Balanced(s, t);
      TakingCounts(s, t, now, u);
    }
  }

  lemma {:induction false} TakingCounts(s: State, t: Task, now: Time, u: Task)
    requires t in s.tasks && s.tasks[t].AwaitSlot?
    ensures var log := SlotStep(s, t, now).log;
            && Count(log, SlotTaken(u)) == Count(s.log, SlotTaken(u)) + (if u == t then 1 else 0)
            && Count(log, SlotReleased(u)) == Count(s.log, SlotReleased(u))
  {
    var mid, sent := s.log + [SlotTaken(t)], CookieSent(t, s.tasks[t].admitted);
    assert SlotStep(s, t, now).log == mid + [sent];
    CountSnoc(s.log, SlotTaken(t), SlotTaken(u));
    CountSnoc(s.log, SlotTaken(t), SlotReleased(u));
    CountSnoc(mid, sent, SlotTaken(u));
    CountSnoc(mid, sent, SlotReleased(u));
  }

  lemma {:induction false} ReleasingKeeps(cfg: Config, s: State, s': State, t: Task)
    requires SlotInv(cfg, s) && t in s.tasks && s.tasks[t].InFlight?
    requires s'.borrowers == s.borrowers - {t} && s'.log == s.log + [SlotReleased(t)]
    requires t in s'.tasks && s'.tasks == s.tasks[t := s'.tasks[t]] && Ended(s'.tasks[t])
    ensures SlotInv(cfg, s')
  {
    forall u: Task ensures Balanced(s', u) {
      assert Balanced(s, u);
      CountSnoc(s.log, SlotReleased(t), SlotTaken(u));
      CountSnoc(s.log, SlotReleased(t), SlotReleased(u));
    }
  }

  predicate Slotless(s: State, step: Step) {
    && !step.SlotGranted? && !step.FetchAnswered?
    && (step.Cancel? && step.t in s.tasks ==> !s.tasks[step.t].InFlight?)
  }

  lemma {:induction false} SlotlessShape(cfg: Config, s: State, step: Step, now: Time)
    requires cfg.limits.max >= 1 && Enabled(cfg, s, step, now) && Slotless(s, step)
    ensures var s', t := Apply(cfg, s, step, now), step.t;
            && s'.borrowers == s.borrowers
            && t in s'.tasks && s'.tasks == s.tasks[t := s'.tasks[t]] && !s'.tasks[t].InFlight?
            && (s'.log == s.log || s'.log == s.log + [ProbePassed] || s'.log == s.log + [ContractFailed])
            && (t in s.tasks ==> !s.tasks[t].InFlight? && !Ended(s.tasks[t]))
  {
  }

  lemma {:induction false} StepKeepsSlots(cfg: Config, s: State, step: Step, now: Time)
    requires cfg.limits.max >= 1 && SlotInv(cfg, s) && Enabled(cfg, s, step, now)
    ensures SlotInv(cfg, Apply(cfg, s, step, now))
  {
    var s' := Apply(cfg, s, step, now);
    match step {
      case SlotGranted(t) => TakingKeeps(cfg, s, t, now);
      case FetchAnswered(t, result, wall) => ReleasingKeeps(cfg, s, s', t);
      case Cancel(t) =>
        if s.tasks[t].InFlight? { ReleasingKeeps(cfg, s, s', t); }
      case _ =>
    }
    if Slotless(s, step) {
      SlotlessShape(cfg, s, step, now);
      SlotlessStepKeeps(cfg, s, s', step.t);
    }
  }

  /** In every interleaving with failures, timeouts and cancellations: the calls in flight are exactly the
      slots out, never more than `concurrency`, and each slot taken is given back exactly once. */
  lemma {:induction false} SlotsAreConserved(cfg: Config, events: seq<Event>)
    requires cfg.limits.max >= 1 && Run(cfg, events).Some?
    ensures SlotInv(cfg, Run(cfg, events).value)
  {
    if events != [] {
      var n := |events| - 1;
      SlotsAreConserved(cfg, events[..n]);
      StepKeepsSlots(cfg, Run(cfg, events[..n]).value, events[n].step, events[n].at);
    }
  }

  // ---- gates

  /** The admission a task carries onward, if it is a verification past its gates. */
  function Carries(pc: Pc): Option<Admitted> {
    match pc
    case AwaitLock(Verify(a)) => Some(a)
    case ProbingNull(Verify(a), _) => Some(a)
    case ProbingBearer(Verify(a), _) => Some(a)
    case AwaitSlot(a) => Some(a)
    case InFlight(a) => Some(a)
    case _ => None
  }

  /** Event `j` is task `t`'s own call, and at that moment its request passed the structural check, CSRF
      and the keyring as `a`, missed the cache, and found the latch open. */
  ghost predicate GatedAt(cfg: Config, events: seq<Event>, j: nat, t: Task, a: Admitted)
    requires cfg.limits.max >= 1
  {
    && j < |events| && Run(cfg, events[..j]).Some?
    && events[j].step.CallVerify? && events[j].step.t == t
    && Precheck(cfg, events[j].step.req) == Ok(a)
    && var g := Run(cfg, events[..j]).value.gate;
       && !Cache.Holds(cfg.limits, g.cache, cfg.digest(a.material), events[j].at).held
       && !Backoffs.Latched(g.blockedUntil, events[j].at).latched
  }

  ghost predicate WasGated(cfg: Config, events: seq<Event>, t: Task, a: Admitted)
    requires cfg.limits.max >= 1
  {
    exists j: nat :: GatedAt(cfg, events, j, t, a)
  }

  lemma {:induction false} WasGatedStands(cfg: Config, events: seq<Event>, t: Task, a: Admitted)
    requires cfg.limits.max >= 1 && events != [] && WasGated(cfg, events[..|events| - 1], t, a)
    ensures WasGated(cfg, events, t, a)
  {
    var before := events[..|events| - 1];
    var j: nat :| GatedAt(cfg, before, j, t, a);
    assert before[..j] == events[..j];
    assert GatedAt(cfg, events, j, t, a);
  }

  /** Only a call that passes every gate lets its task carry an admission. */
  lemma {:induction false} GatesAdmit(cfg: Config, g: Gate, checked: Result<Admitted, Refusal>, now: Time, a: Admitted)
    requires Gated(cfg, g, checked, now).begun in {Proceed(a), NeedLock(a)}
    ensures checked == Ok(a)
    ensures !Cache.Holds(cfg.limits, g.cache, cfg.digest(a.material), now).held
    ensures !Backoffs.Latched(g.blockedUntil, now).latched
  {
  }

  lemma {:induction false} CarriedWasCarried(cfg: Config, s: State, step: Step, now: Time, t: Task, a: Admitted)
    requires cfg.limits.max >= 1 && Enabled(cfg, s, step, now)
    requires var s' := Apply(cfg, s, step, now); t in s'.tasks && Carries(s'.tasks[t]) == Some(a)
    ensures (t in s.tasks && Carries(s.tasks[t]) == Some(a))
            || (step.CallVerify? && step.t == t
                && Gated(cfg, s.gate, Precheck(cfg, step.req), now).begun in {Proceed(a), NeedLock(a)})
  {
    if t == step.t { OwnCarried(cfg, s, step, now, a); }
  }

  lemma {:induction false} OwnCarried(cfg: Config, s: State, step: Step, now: Time, a: Admitted)
    requires cfg.limits.max >= 1 && Enabled(cfg, s, step, now)
    requires Carries(Apply(cfg, s, step, now).tasks[step.t]) == Some(a)
    ensures (step.t in s.tasks && Carries(s.tasks[step.t]) == Some(a))
            || (step.CallVerify?
                && Gated(cfg, s.gate, Precheck(cfg, step.req), now).begun in {Proceed(a), NeedLock(a)})
  {
    match step {
      case CallVerify(t, req) => CallCarried(cfg, s, t, req, now);
      case LockGranted(t) => LockCarried(s, t, now);
      case ProbeAnswered(t, result) => ProbeCarried(s, t, ProbeVerdict(cfg, s.tasks[t], result), now);
      case _ => StillCarried(cfg, s, step, now);
    }
  }

  lemma {:induction false} StillCarried(cfg: Config, s: State, step: Step, now: Time)
    requires cfg.limits.max >= 1 && Enabled(cfg, s, step, now)
    requires !step.CallVerify? && !step.LockGranted? && !step.ProbeAnswered?
    ensures var after := Carries(Apply(cfg, s, step, now).tasks[step.t]);
            after.Some? ==> step.SlotGranted? && after == Carries(s.tasks[step.t])
  {
  }

  lemma {:induction false} CallCarried(cfg: Config, s: State, t: Task, req: Request, now: Time)
    ensures var after := Carries(VerifyStep(cfg, s, t, req, now).tasks[t]);
            after.Some? ==>
              Gated(cfg, s.gate, Precheck(cfg, req), now).begun in {Proceed(after.value), NeedLock(after.value)}
  {
  }

  /** Waiting for the probe lock and for the probe change nothing about the cookie a request holds. */
  lemma {:induction false} LockCarried(s: State, t: Task, now: Time)
    requires t in s.tasks && s.tasks[t].AwaitLock?
    ensures var after := Carries(LockStep(s, t, now).tasks[t]);
            after.Some? ==> after == Carries(s.tasks[t])
  {
  }

  lemma {:induction false} ProbeCarried(s: State, t: Task, verdict: Verdict, now: Time)
    requires t in s.tasks && Probing(s.tasks[t])
    ensures var after := Carries(AfterVerdict(s, t, verdict, now).tasks[t]);
            after.Some? ==> after == Carries(s.tasks[t])
  {
  }

  lemma {:induction false} SentWasCarried(cfg: Config, s: State, step: Step, now: Time, i: nat)
    requires cfg.limits.max >= 1 && Enabled(cfg, s, step, now)
    requires var log := Apply(cfg, s, step, now).log; i < |log| && log[i].CookieSent?
    ensures var h := Apply(cfg, s, step, now).log[i];
            (i < |s.log| && s.log[i] == h) || (h.t in s.tasks && Carries(s.tasks[h.t]) == Some(h.admitted))
  {
    match step {
      case SlotGranted(t) =>
        assert Apply(cfg, s, step, now).log == s.log + [SlotTaken(t), CookieSent(t, s.tasks[t].admitted)];
      case _ => QuietLog(cfg, s, step, now);
    }
  }

  lemma {:induction false} QuietLog(cfg: Config, s: State, step: Step, now: Time)
    requires cfg.limits.max >= 1 && Enabled(cfg, s, step, now) && !step.SlotGranted?
    ensures var log := Apply(cfg, s, step, now).log;
            log == s.log || (log == s.log + [log[|s.log|]] && !log[|s.log|].CookieSent?)
  {
  }

  ghost predicate AllGated(cfg: Config, events: seq<Event>, s: State)
    requires cfg.limits.max >= 1
  {
    && (forall t :: t in s.tasks && Carries(s.tasks[t]).Some? ==> WasGated(cfg, events, t, Carries(s.tasks[t]).value))
    && (forall i :: 0 <= i < |s.log| && s.log[i].CookieSent? ==> WasGated(cfg, events, s.log[i].t, s.log[i].admitted))
  }

  /** In every interleaving, each get-session call forwards a cookie that its own request brought through
      the structural check, CSRF, the keyring, a cache miss and an open latch. */
  lemma {:induction false} EverySentCookieWasGated(cfg: Config, events: seq<Event>)
    requires cfg.limits.max >= 1 && Run(cfg, events).Some?
    ensures AllGated(cfg, events, Run(cfg, events).value)
  {
    if events != [] {
      var n := |events| - 1;
      var before, last := events[..n], events[n];
      EverySentCookieWasGated(cfg, before);
      var s, s' := Run(cfg, before).value, Run(cfg, events).value;
      forall t | t in s'.tasks && Carries(s'.tasks[t]).Some?
        ensures WasGated(cfg, events, t, Carries(s'.tasks[t]).value)
      {
        CarrierWasGated(cfg, events, s, s', t);
      }
      forall i | 0 <= i < |s'.log| && s'.log[i].CookieSent?
        ensures WasGated(cfg, events, s'.log[i].t, s'.log[i].admitted)
      {
        SentWasCarried(cfg, s, last.step, last.at, i);
        WasGatedStands(cfg, events, s'.log[i].t, s'.log[i].admitted);
      }
    }
  }

  lemma {:induction false} CarrierWasGated(cfg: Config, events: seq<Event>, s: State, s': State, t: Task)
    requires cfg.limits.max >= 1 && events != []
    requires Run(cfg, events) == Some(s') && Run(cfg, events[..|events| - 1]) == Some(s)
    requires AllGated(cfg, events[..|events| - 1], s)
    requires t in s'.tasks && Carries(s'.tasks[t]).Some?
    ensures WasGated(cfg, events, t, Carries(s'.tasks[t]).value)
  {
    var n, a := |events| - 1, Carries(s'.tasks[t]).value;
    CarriedWasCarried(cfg, s, events[n].step, events[n].at, t, a);
    if t in s.tasks && Carries(s.tasks[t]) == Some(a) {
      WasGatedStands(cfg, events, t, a);
    } else {
      GatesAdmit(cfg, s.gate, Precheck(cfg, events[n].step.req), events[n].at, a);
      assert GatedAt(cfg, events, n, t, a);
    }
  }

  // ---- what the negative cache repeats

  /** Event `j` is an answer `200` with `null` to a cookie filed under `key`, at time `at`. */
  ghost predicate AnsweredNullAt(cfg: Config, events: seq<Event>, j: nat, key: Cache.Key, at: Time)
    requires cfg.limits.max >= 1
  {
    && j < |events| && Run(cfg, events[..j]).Some? && events[j].at == at
    && events[j].step.FetchAnswered? && events[j].step.result.Answered?
    && IsCacheableNull(events[j].step.result.response)
    && var s := Run(cfg, events[..j]).value;
       && events[j].step.t in s.tasks && s.tasks[events[j].step.t].InFlight?
       && cfg.digest(s.tasks[events[j].step.t].admitted.material) == key
  }

  ghost predicate AnsweredNull(cfg: Config, events: seq<Event>, key: Cache.Key, at: Time)
    requires cfg.limits.max >= 1
  {
    exists j: nat :: AnsweredNullAt(cfg, events, j, key, at)
  }

  ghost predicate CacheInv(cfg: Config, events: seq<Event>, entries: Cache.Entries)
    requires cfg.limits.max >= 1
  {
    && entries.Valid() && entries.Len() <= cfg.limits.max
    && forall key :: key in entries.items ==> AnsweredNull(cfg, events, key, entries.items[key])
  }

  lemma {:induction false} AnsweredNullStands(cfg: Config, events: seq<Event>, key: Cache.Key, at: Time)
    requires cfg.limits.max >= 1 && events != [] && AnsweredNull(cfg, events[..|events| - 1], key, at)
    ensures AnsweredNull(cfg, events, key, at)
  {
    var before := events[..|events| - 1];
    var j: nat :| AnsweredNullAt(cfg, before, j, key, at);
    AnsweredNullAtStands(cfg, events, j, key, at);
  }

  lemma {:induction false} AnsweredNullAtStands(cfg: Config, events: seq<Event>, j: nat, key: Cache.Key, at: Time)
    requires cfg.limits.max >= 1 && events != [] && AnsweredNullAt(cfg, events[..|events| - 1], j, key, at)
    ensures AnsweredNullAt(cfg, events, j, key, at)
  {
    var before := events[..|events| - 1];
    assert before[..j] == events[..j] && before[j] == events[j];
  }

  /** A step either looks at the cache, or remembers one null answer, or leaves it alone. */
  lemma {:induction false} CacheChanges(cfg: Config, s: State, step: Step, now: Time)
    requires cfg.limits.max >= 1 && Enabled(cfg, s, step, now)
    ensures var before, after := s.gate.cache, Apply(cfg, s, step, now).gate.cache;
            || after == before
            || (exists key :: after == Cache.Holds(cfg.limits, before, key, now).entries)
            || (step.FetchAnswered? && step.result.Answered? && IsCacheableNull(step.result.response)
                && after == Cache.Remember(cfg.limits, before, cfg.digest(s.tasks[step.t].admitted.material), now))
  {
    match step {
      case CallVerify(t, req) => GatesLook(cfg, s.gate, Precheck(cfg, req), now);
      case _ =>
    }
  }

  lemma {:induction false} GatesLook(cfg: Config, g: Gate, checked: Result<Admitted, Refusal>, now: Time)
    ensures var after := Gated(cfg, g, checked, now).gate.cache;
            after == g.cache || exists key :: after == Cache.Holds(cfg.limits, g.cache, key, now).entries
  {
    if checked.Ok? {
      assert Gated(cfg, g, checked, now).gate.cache
             == Cache.Holds(cfg.limits, g.cache, cfg.digest(checked.value.material), now).entries;
    }
  }

  /** In every interleaving, whatever the cache holds was answered `200` with `null`, when it says so. */
  lemma {:induction false} CachedWasAnswered(cfg: Config, events: seq<Event>)
    requires cfg.limits.max >= 1 && Run(cfg, events).Some?
    ensures CacheInv(cfg, events, Run(cfg, events).value.gate.cache)
  {
    if events != [] {
      var n := |events| - 1;
      CachedWasAnswered(cfg, events[..n]);
      CacheStepKeeps(cfg, events, Run(cfg, events[..n]).value, Run(cfg, events).value);
    }
  }

  lemma {:induction false} CacheStepKeeps(cfg: Config, events: seq<Event>, s: State, s': State)
    requires cfg.limits.max >= 1 && events != []
    requires Run(cfg, events) == Some(s') && Run(cfg, events[..|events| - 1]) == Some(s)
    requires CacheInv(cfg, events[..|events| - 1], s.gate.cache)
    ensures CacheInv(cfg, events, s'.gate.cache)
  {
    var n := |events| - 1;
    var step, now, entries := events[n].step, events[n].at, s.gate.cache;
    CacheChanges(cfg, s, step, now);
    CacheInvStands(cfg, events, entries);
    if exists key :: s'.gate.cache == Cache.Holds(cfg.limits, entries, key, now).entries {
      var key :| s'.gate.cache == Cache.Holds(cfg.limits, entries, key, now).entries;
      LookedWasAnswered(cfg, events, entries, key, now);
    } else if s'.gate.cache != entries {
      var key := cfg.digest(s.tasks[step.t].admitted.material);
      assert AnsweredNullAt(cfg, events, n, key, now);
      RememberedWasAnswered(cfg, events, entries, key, now);
    }
  }

  lemma {:induction false} CacheInvStands(cfg: Config, events: seq<Event>, entries: Cache.Entries)
    requires cfg.limits.max >= 1 && events != [] && CacheInv(cfg, events[..|events| - 1], entries)
    ensures CacheInv(cfg, events, entries)
  {
    forall key | key in entries.items ensures AnsweredNull(cfg, events, key, entries.items[key]) {
      AnsweredNullStands(cfg, events, key, entries.items[key]);
    }
  }

  lemma {:induction false} LookedWasAnswered(
      cfg: Config, events: seq<Event>, entries: Cache.Entries, key: Cache.Key, now: Time)
    requires cfg.limits.max >= 1 && CacheInv(cfg, events, entries)
    ensures CacheInv(cfg, events, Cache.Holds(cfg.limits, entries, key, now).entries)
  {
    var after := Cache.Holds(cfg.limits, entries, key, now).entries;
    Cache.EvictedIsBounded(cfg.limits, entries, key, now);
    forall k | k in after.items ensures AnsweredNull(cfg, events, k, after.items[k]) {
      Cache.ApplyKeepsStamps(cfg.limits, entries, Cache.Look(key, now), k);
    }
  }

  lemma {:induction false} RememberedWasAnswered(
      cfg: Config, events: seq<Event>, entries: Cache.Entries, key: Cache.Key, now: Time)
    requires cfg.limits.max >= 1 && CacheInv(cfg, events, entries) && AnsweredNull(cfg, events, key, now)
    ensures CacheInv(cfg, events, Cache.Remember(cfg.limits, entries, key, now))
  {
    var after := Cache.Remember(cfg.limits, entries, key, now);
    Cache.EvictedIsBounded(cfg.limits, entries, key, now);
    forall k | k in after.items ensures AnsweredNull(cfg, events, k, after.items[k]) {
      Cache.ApplyKeepsStamps(cfg.limits, entries, Cache.Learn(key, now), k);
    }
  }

  /** In every interleaving, a refusal from the negative cache repeats, within the TTL, an upstream answer
      to a cookie with the same digest: the refusal that very answer would have given this request. */
  lemma {:induction false} CacheHitRepeatsAnAnswer(cfg: Config, events: seq<Event>, a: Admitted, now: Time)
      returns (j: nat)
    requires cfg.limits.max >= 1 && Run(cfg, events).Some?
    requires Cache.Holds(cfg.limits, Run(cfg, events).value.gate.cache, cfg.digest(a.material), now).held
    ensures j < |events| && now - events[j].at < cfg.limits.ttl
    ensures AnsweredNullAt(cfg, events, j, cfg.digest(a.material), events[j].at)
    ensures Gates(cfg, Run(cfg, events).value.gate, a, now).begun == Stop(NullOutcome(a.verified))
    ensures SessionDocument(events[j].step.result.response, a.verified) == Err(NullOutcome(a.verified))
  {
    CachedWasAnswered(cfg, events);
    var entries, key := Run(cfg, events).value.gate.cache, cfg.digest(a.material);
    j :| AnsweredNullAt(cfg, events, j, key, entries.items[key]);
    CacheableExactlyWhenNullOutcome(events[j].step.result.response, a.verified);
  }

  // ---- what a pass and a session rest on

  /** Event `j` is upstream's `200` with `null` to task `t`'s bare probe. */
  ghost predicate BareAt(events: seq<Event>, j: nat, t: Task) {
    && j < |events| && events[j].step.ProbeAnswered? && events[j].step.t == t
    && events[j].step.result.Answered? && IsCacheableNull(events[j].step.result.response)
  }

  /** Event `k` ends task `t`'s bearer rung; where that rung refuses, with an answer that set no cookie. */
  ghost predicate BearerAt(cfg: Config, events: seq<Event>, k: nat, t: Task) {
    && k < |events| && events[k].step.ProbeAnswered? && events[k].step.t == t
    && (cfg.refuseUnsignedBearer ==>
          events[k].step.result.Answered? && "set-cookie" !in events[k].step.result.response.headers)
  }

  ghost predicate Bare(events: seq<Event>, t: Task) { exists j: nat :: BareAt(events, j, t) }

  ghost predicate ProbedBoth(cfg: Config, events: seq<Event>) {
    exists t: Task, j: nat, k: nat :: j < k && BareAt(events, j, t) && BearerAt(cfg, events, k, t)
  }

  lemma {:induction false} BareStands(events: seq<Event>, t: Task)
    requires events != [] && Bare(events[..|events| - 1], t)
    ensures Bare(events, t)
  {
    var j: nat :| BareAt(events[..|events| - 1], j, t);
    assert BareAt(events, j, t);
  }

  lemma {:induction false} ProbedBothStands(cfg: Config, events: seq<Event>)
    requires events != [] && ProbedBoth(cfg, events[..|events| - 1])
    ensures ProbedBoth(cfg, events)
  {
    var before := events[..|events| - 1];
    var t: Task, j: nat, k: nat :| j < k && BareAt(before, j, t) && BearerAt(cfg, before, k, t);
    assert BareAt(events, j, t) && BearerAt(cfg, events, k, t);
  }

  /** In every interleaving, the verifier is ready only after one probe's two requests were answered in
      turn: the bare one `200` with `null`, and - where that is demanded - the bearer one with no cookie. */
  lemma {:induction false} ReadyWasProven(cfg: Config, events: seq<Event>)
    requires cfg.limits.max >= 1 && Run(cfg, events).Some?
    ensures var s := Run(cfg, events).value;
            && (s.gate.probedOk ==> ProbedBoth(cfg, events))
            && (forall t :: t in s.tasks && s.tasks[t].ProbingBearer? ==> Bare(events, t))
  {
    if events != [] {
      var n := |events| - 1;
      var s, s' := Run(cfg, events[..n]).value, Run(cfg, events).value;
      ReadyWasProven(cfg, events[..n]);
      forall t | t in s'.tasks && s'.tasks[t].ProbingBearer? ensures Bare(events, t) {
        BearerFollowsBare(cfg, s, events[n].step, events[n].at, t);
        if t in s.tasks && s.tasks[t].ProbingBearer? { BareStands(events, t); } else { assert BareAt(events, n, t); }
      }
      if s'.gate.probedOk {
        PassEndsBearer(cfg, s, events[n].step, events[n].at);
        if s.gate.probedOk {
          ProbedBothStands(cfg, events);
        } else {
          var t := events[n].step.t;
          var j: nat :| BareAt(events[..n], j, t);
          assert BareAt(events, j, t) && BearerAt(cfg, events, n, t);
        }
      }
    }
  }

  lemma {:induction false} BearerFollowsBare(cfg: Config, s: State, step: Step, now: Time, t: Task)
    requires cfg.limits.max >= 1 && Enabled(cfg, s, step, now)
    requires var tasks := Apply(cfg, s, step, now).tasks; t in tasks && tasks[t].ProbingBearer?
    ensures (t in s.tasks && s.tasks[t].ProbingBearer?)
            || (step.ProbeAnswered? && step.t == t && step.result.Answered? && IsCacheableNull(step.result.response))
  {
  }

  lemma {:induction false} PassEndsBearer(cfg: Config, s: State, step: Step, now: Time)
    requires cfg.limits.max >= 1 && Enabled(cfg, s, step, now) && Apply(cfg, s, step, now).gate.probedOk
    ensures s.gate.probedOk
            || (step.ProbeAnswered? && s.tasks[step.t].ProbingBearer?
                && (cfg.refuseUnsignedBearer ==>
                      step.result.Answered? && "set-cookie" !in step.result.response.headers))
  {
    match step {
      case CallVerify(t, req) => GatesKeepProbe(cfg, s.gate, Precheck(cfg, req), now);
      case FetchAnswered(t, result, wall) => SettleKeepsProbe(cfg, s.gate, s.tasks[t].admitted, result, now, wall);
      case _ =>
    }
  }

  /** Event `j` is upstream's own document for task `t`'s forwarded cookie, naming the token forwarded,
      unexpired, and its user not banned. */
  ghost predicate ProvenAt(cfg: Config, events: seq<Event>, j: nat, t: Task, a: Admitted, record: Record)
    requires cfg.limits.max >= 1
  {
    && j < |events| && events[j].step.FetchAnswered? && events[j].step.t == t
    && events[j].step.result.Answered?
    && ShowsLive(events[j].step.result.response, a.token, record, events[j].step.wall)
    && Run(cfg, events[..j]).Some?
    && t in Run(cfg, events[..j]).value.tasks && Run(cfg, events[..j]).value.tasks[t] == InFlight(a)
    && WasGated(cfg, events, t, a)
  }

  ghost predicate ShowsLive(response: Response, token: string, record: Record, wall: real) {
    && response.status == 200 && IsJson(response) && response.body == Document(record)
    && record.token == token && wall < record.expiresAt
    && (record.banned == Some(true) ==> record.banExpires.Some? && record.banExpires.value <= wall)
  }

  ghost predicate SessionProven(cfg: Config, events: seq<Event>, t: Task, record: Record)
    requires cfg.limits.max >= 1
  {
    exists j: nat, a: Admitted :: ProvenAt(cfg, events, j, t, a, record)
  }

  lemma {:induction false} SessionProvenStands(cfg: Config, events: seq<Event>, t: Task, record: Record)
    requires cfg.limits.max >= 1 && events != [] && SessionProven(cfg, events[..|events| - 1], t, record)
    ensures SessionProven(cfg, events, t, record)
  {
    var j: nat, a :| ProvenAt(cfg, events[..|events| - 1], j, t, a, record);
    ProvenAtStands(cfg, events, j, t, a, record);
  }

  lemma {:induction false} ProvenAtStands(cfg: Config, events: seq<Event>, j: nat, t: Task, a: Admitted, record: Record)
    requires cfg.limits.max >= 1 && events != [] && ProvenAt(cfg, events[..|events| - 1], j, t, a, record)
    ensures ProvenAt(cfg, events, j, t, a, record)
  {
    var before := events[..|events| - 1];
    assert before[..j] == events[..j] && before[j] == events[j];
    WasGatedStands(cfg, events, t, a);
  }

  /** In every interleaving, a session is returned only for a live upstream document that names the very
      token of the caller's own cookie, forwarded after its own request passed every gate. */
  lemma {:induction false} EverySessionIsProven(cfg: Config, events: seq<Event>, t: Task)
    requires cfg.limits.max >= 1 && Run(cfg, events).Some?
    requires t in Run(cfg, events).value.tasks && Run(cfg, events).value.tasks[t].Finished?
    requires Run(cfg, events).value.tasks[t].outcome.Session?
    ensures SessionProven(cfg, events, t, Run(cfg, events).value.tasks[t].outcome.record)
  {
    var n := |events| - 1;
    var s, s' := Run(cfg, events[..n]).value, Run(cfg, events).value;
    SessionComesFrom(cfg, s, events[n].step, events[n].at, t);
    if t in s.tasks && s.tasks[t] == s'.tasks[t] {
      EverySessionIsProven(cfg, events[..n], t);
      SessionProvenStands(cfg, events, t, s'.tasks[t].outcome.record);
    } else {
      NewSessionIsProven(cfg, events, t, s.tasks[t].admitted, s'.tasks[t].outcome.record);
    }
  }

  lemma {:induction false} NewSessionIsProven(cfg: Config, events: seq<Event>, t: Task, a: Admitted, record: Record)
    requires cfg.limits.max >= 1 && events != [] && Run(cfg, events[..|events| - 1]).Some?
    requires var s, step := Run(cfg, events[..|events| - 1]).value, events[|events| - 1].step;
             && t in s.tasks && s.tasks[t] == InFlight(a)
             && step.FetchAnswered? && step.t == t && step.result.Answered?
             && ShowsLive(step.result.response, a.token, record, step.wall)
    ensures SessionProven(cfg, events, t, record)
  {
    var n := |events| - 1;
    EverySentCookieWasGated(cfg, events[..n]);
    WasGatedStands(cfg, events, t, a);
    assert ProvenAt(cfg, events, n, t, a, record);
  }

  lemma {:induction false} SessionComesFrom(cfg: Config, s: State, step: Step, now: Time, t: Task)
    requires cfg.limits.max >= 1 && Enabled(cfg, s, step, now)
    requires var tasks := Apply(cfg, s, step, now).tasks;
             t in tasks && tasks[t].Finished? && tasks[t].outcome.Session?
    ensures var record := Apply(cfg, s, step, now).tasks[t].outcome.record;
            || (t in s.tasks && s.tasks[t] == Apply(cfg, s, step, now).tasks[t])
            || (t in s.tasks && s.tasks[t].InFlight? && step.FetchAnswered? && step.t == t && step.result.Answered?
                && ShowsLive(step.result.response, s.tasks[t].admitted.token, record, step.wall))
  {
    if step.t == t && step.FetchAnswered? {
      SettledSessionShowsLive(cfg, s.gate, s.tasks[t].admitted, step.result, now, step.wall);
    }
  }

  lemma {:induction false} SettledSessionShowsLive(
      cfg: Config, g: Gate, a: Admitted, result: Transported, now: Time, wall: real)
    requires cfg.limits.max >= 1 && Settle(cfg, g, a, result, now, wall).outcome.Session?
    ensures result.Answered?
    ensures ShowsLive(result.response, a.token, Settle(cfg, g, a, result, now, wall).outcome.record, wall)
  {
    ReadShowsLive(result.response, a, wall);
  }

  lemma {:induction false} ReadShowsLive(response: Response, a: Admitted, wall: real)
    requires Read(response, a, wall).Session?
    ensures ShowsLive(response, a.token, Read(response, a, wall).record, wall)
  {
  }
}
