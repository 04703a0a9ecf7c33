/** Calls made inside a 429 window: how one comes about, and exactly when. */
module LatchedSends {
  import opened Wrappers
  import opened Throttle
  import opened RemoteResponse
  import opened RemoteVerifier
  import opened RemoteRuns
  import opened RemoteCalls
  import Backoffs = BackoffLatch

  predicate IsLimited(step: Step) {
    step.FetchAnswered? && step.result.Answered? && step.result.response.status == 429
  }

  predicate Open(stamp: Option<Time>, at: Time) { Backoffs.Latched(stamp, at).latched }

  /** When the backoff a 429 asked for would end. */
  function EndOf(e: Event, parse: ParseInt): Time
    requires IsLimited(e.step)
  {
    e.at + Backoff(e.step.result.response, parse) as real
  }

  /** The reference windows of a run, from its responses and their times alone. */
  function WindowsOf(events: seq<Event>, parse: ParseInt): seq<Backoffs.Window> {
    if events == [] then []
    else
      var windows, last := WindowsOf(events[..|events| - 1], parse), events[|events| - 1];
      if IsLimited(last.step) && !Backoffs.Inside(windows, last.at)
      then windows + [Backoffs.Window(last.at, EndOf(last, parse))] else windows
  }

  /** Event `i` is a 429 that arrives inside no window. */
  predicate Opens(events: seq<Event>, i: nat, parse: ParseInt)
    requires i < |events|
  {
    IsLimited(events[i].step) && !Backoffs.Inside(WindowsOf(events[..i], parse), events[i].at)
  }

  ghost predicate ReachedBy(events: seq<Event>, at: Time) { forall i :: 0 <= i < |events| ==> events[i].at <= at }

  ghost predicate Begun(windows: seq<Backoffs.Window>, at: Time) {
    forall i :: 0 <= i < |windows| ==> windows[i].since <= at
  }

  /** In every interleaving the verifier's latch is on exactly inside the reference windows. */
  lemma {:induction false} LatchIsWindows(cfg: Config, events: seq<Event>, at: Time)
    requires cfg.limits.max >= 1 && Run(cfg, events).Some? && ReachedBy(events, at)
    ensures Open(Run(cfg, events).value.gate.blockedUntil, at) <==> Backoffs.Inside(WindowsOf(events, cfg.parseInt), at)
    ensures Begun(WindowsOf(events, cfg.parseInt), at)
  {
    if events != [] {
      var before, last := events[..|events| - 1], events[|events| - 1];
      TimesRise(cfg, events);
      LatchIsWindows(cfg, before, last.at);
      LatchIsWindows(cfg, before, at);
      StepMoves(cfg, Run(cfg, before).value, last);
      WindowsMove(last, Run(cfg, before).value.gate.blockedUntil, Run(cfg, events).value.gate.blockedUntil,
                  WindowsOf(before, cfg.parseInt), cfg.parseInt, at);
    }
  }

  /** A cookie is sent inside a window exactly when some 429 that opened one arrived after its own request
      looked at the latch and before it was given a slot, and the backoff it asked for is not over. No earlier
      429 can do it, and no later response lifts it. */
  lemma {:induction false} LatchedSendExactly(cfg: Config, events: seq<Event>, j: nat, k: nat, t: Task, a: Admitted)
    requires cfg.limits.max >= 1 && j < k < |events| && Run(cfg, events[..k + 1]).Some?
    requires GatedAt(cfg, events, j, t, a) && events[k].step == SlotGranted(t)
    ensures Run(cfg, events[..k]).Some?
    ensures Open(Run(cfg, events[..k]).value.gate.blockedUntil, events[k].at) <==>
      exists i :: j < i < k && Opens(events, i, cfg.parseInt) && events[k].at < EndOf(events[i], cfg.parseInt)
  {
    EventRuns(cfg, events, k);
    LatchedAtExactly(cfg, events, j, k, t, a);
  }

  lemma {:induction false} EventRuns(cfg: Config, events: seq<Event>, k: nat)
    requires cfg.limits.max >= 1 && k < |events| && Run(cfg, events[..k + 1]).Some?
    ensures Run(cfg, events[..k]).Some? && ReachedBy(events[..k], events[k].at)
  {
    assert events[..k + 1][..k] == events[..k];
    TimesRise(cfg, events[..k + 1]);
  }

  lemma {:induction false} LatchedAtExactly(cfg: Config, events: seq<Event>, j: nat, k: nat, t: Task, a: Admitted)
    requires cfg.limits.max >= 1 && j < k < |events| && Run(cfg, events[..k]).Some?
              && ReachedBy(events[..k], events[k].at)
    requires GatedAt(cfg, events, j, t, a)
    ensures Open(Run(cfg, events[..k]).value.gate.blockedUntil, events[k].at) <==>
      exists i :: j < i < k && Opens(events, i, cfg.parseInt) && events[k].at < EndOf(events[i], cfg.parseInt)
  {
    var parse, at := cfg.parseInt, events[k].at;
    LatchIsWindows(cfg, events[..k], at);
    InsideExactly(events, k, parse, at);
    forall i | 0 <= i < k && Opens(events, i, parse) && at < EndOf(events[i], parse) ensures j < i {
      if i < j { EarlierWindowIsOver(cfg, events, i, j, k, t, a); }
    }
  }

  // ---- one step

  /** A 429 sets the stamp where no window is open; anything else keeps it, or clears it once it has elapsed. */
  predicate Moved(e: Event, stamp: Option<Time>, next: Option<Time>, parse: ParseInt) {
    if IsLimited(e.step) then next == if Open(stamp, e.at) then stamp else Some(EndOf(e, parse))
    else next == stamp || (next == None && !Open(stamp, e.at))
  }

  lemma {:induction false} StepMoves(cfg: Config, s: State, e: Event)
    requires cfg.limits.max >= 1 && Enabled(cfg, s, e.step, e.at)
    ensures var s' := Apply(cfg, s, e.step, e.at);
            s'.now == e.at && Moved(e, s.gate.blockedUntil, s'.gate.blockedUntil, cfg.parseInt)
  {
    match e.step {
      case CallVerify(t, req) =>
      case LockGranted(t) =>
      case ProbeAnswered(t, result) =>
      case FetchAnswered(t, result, wall) =>
      case _ =>
    }
  }

  lemma {:induction false} WindowsMove(
      e: Event, stamp: Option<Time>, next: Option<Time>, windows: seq<Backoffs.Window>, parse: ParseInt, at: Time)
    requires Moved(e, stamp, next, parse) && e.at <= at && Begun(windows, e.at)
    requires Open(stamp, e.at) <==> Backoffs.Inside(windows, e.at)
    requires Open(stamp, at) <==> Backoffs.Inside(windows, at)
    ensures var longer := if IsLimited(e.step) && !Backoffs.Inside(windows, e.at)
                          then windows + [Backoffs.Window(e.at, EndOf(e, parse))] else windows;
            (Open(next, at) <==> Backoffs.Inside(longer, at)) && Begun(longer, at)
  {
    if IsLimited(e.step) && !Backoffs.Inside(windows, e.at) {
      InsideLonger(windows, Backoffs.Window(e.at, EndOf(e, parse)), at);
      forall i | 0 <= i < |windows| ensures windows[i].until <= at {
        assert !(windows[i].since <= e.at < windows[i].until);
      }
    }
  }

  lemma {:induction false} InsideLonger(windows: seq<Backoffs.Window>, w: Backoffs.Window, at: Time)
    ensures Backoffs.Inside(windows + [w], at) <==> Backoffs.Inside(windows, at) || w.since <= at < w.until
  {
    var longer := windows + [w];
    assert longer[|windows|] == w;
    forall i | 0 <= i < |windows| ensures longer[i] == windows[i] {}
  }

  // ---- times

  /** Times never run back. */
  lemma {:induction false} TimesRise(cfg: Config, events: seq<Event>)
    requires cfg.limits.max >= 1 && Run(cfg, events).Some? && events != []
    ensures Run(cfg, events[..|events| - 1]).Some? && Run(cfg, events).value.now == events[|events| - 1].at
    ensures ReachedBy(events[..|events| - 1], events[|events| - 1].at)
  {
    var before, last := events[..|events| - 1], events[|events| - 1];
    StepMoves(cfg, Run(cfg, before).value, last);
    if before != [] {
      TimesRise(cfg, before);
      ReachedSnoc(before, last.at);
    }
  }

  lemma {:induction false} ReachedSnoc(events: seq<Event>, at: Time)
    requires events != [] && ReachedBy(events[..|events| - 1], events[|events| - 1].at) && events[|events| - 1].at <= at
    ensures ReachedBy(events, at)
  {
    assert forall i :: 0 <= i < |events| - 1 ==> events[..|events| - 1][i] == events[i];
  }

  // ---- windows and the responses that opened them

  lemma {:induction false} InsideExactly(events: seq<Event>, k: nat, parse: ParseInt, at: Time)
    requires k <= |events| && ReachedBy(events[..k], at)
    ensures Backoffs.Inside(WindowsOf(events[..k], parse), at) <==>
      exists i :: 0 <= i < k && Opens(events, i, parse) && at < EndOf(events[i], parse)
  {
    if k > 0 {
      var n, e := k - 1, events[k - 1];
      assert events[..k][..n] == events[..n] && events[..k][n] == e;
      assert forall i :: 0 <= i < n ==> events[..n][i] == events[..k][i];
      InsideExactly(events, n, parse, at);
      if Opens(events, n, parse) {
        InsideLonger(WindowsOf(events[..n], parse), Backoffs.Window(e.at, EndOf(e, parse)), at);
      }
    }
  }

  /** A window opened before a request found the latch open was over by then. */
  lemma {:induction false} EarlierWindowIsOver(
      cfg: Config, events: seq<Event>, i: nat, j: nat, k: nat, t: Task, a: Admitted)
    requires cfg.limits.max >= 1 && i < j < k < |events| && ReachedBy(events[..k], events[k].at)
    requires GatedAt(cfg, events, j, t, a) && Opens(events, i, cfg.parseInt) && Run(cfg, events[..k]).Some?
    ensures EndOf(events[i], cfg.parseInt) <= events[k].at
  {
    RunsBefore(cfg, events, j, k);
    LatchIsWindows(cfg, events[..j], events[j].at);
    InsideExactly(events, j, cfg.parseInt, events[j].at);
    assert events[..k][j] == events[j];
  }

  lemma {:induction false} RunsBefore(cfg: Config, events: seq<Event>, j: nat, k: nat)
    requires cfg.limits.max >= 1 && j < k <= |events| && Run(cfg, events[..k]).Some?
    ensures ReachedBy(events[..j], events[j].at)
  {
    PrefixRuns(cfg, events, j + 1, k);
    EventRuns(cfg, events, j);
  }

  lemma {:induction false} PrefixRuns(cfg: Config, events: seq<Event>, j: nat, k: nat)
    requires cfg.limits.max >= 1 && j <= k <= |events| && Run(cfg, events[..k]).Some?
    ensures Run(cfg, events[..j]).Some?
  {
    if j < k {
      assert events[..k][..k - 1] == events[..k - 1];
      PrefixRuns(cfg, events, j, k - 1);
    }
  }

  // ---- a call made while latched

  /** "No call while latched" is not kept: the latch is read once, before the probe and the slot are waited
      for. Whenever some request passes the local checks, this run sends a cookie inside a 429 window. */
  lemma {:induction false} LatchedSendHappens(cfg: Config, req: Request, nothing: Response, limited: Response)
      returns (events: seq<Event>)
    requires cfg.limits.max >= 1 && cfg.concurrency >= 1 && Precheck(cfg, req).Ok?
    requires IsCacheableNull(nothing) && "set-cookie" !in nothing.headers && limited.status == RATE_LIMITED
    ensures Run(cfg, events).Some?
    ensures var s := Run(cfg, events).value;
            && s.log != [] && s.log[|s.log| - 1] == CookieSent(1, Precheck(cfg, req).value)
            && Backoffs.Latched(s.gate.blockedUntil, s.now).latched
  {
    events := TwoWaiting(cfg, req, nothing);
    events := FirstIsLimited(cfg, events, Precheck(cfg, req).value, limited);
    events := Then(cfg, events, SlotGranted(1));
  }

  lemma {:induction false} FirstIsLimited(cfg: Config, events: seq<Event>, a: Admitted, limited: Response)
      returns (after: seq<Event>)
    requires cfg.limits.max >= 1 && cfg.concurrency >= 1 && Run(cfg, events).Some? && limited.status == RATE_LIMITED
    requires var s := Run(cfg, events).value;
             && s.tasks == map[0 := AwaitSlot(a), 1 := AwaitSlot(a)] && s.borrowers == {} && s.now == 0.0
             && s.gate.blockedUntil == None
    ensures Run(cfg, after).Some?
    ensures var s := Run(cfg, after).value;
            && 1 in s.tasks && s.tasks[1] == AwaitSlot(a) && s.borrowers == {} && s.now == 0.0
            && Backoffs.Latched(s.gate.blockedUntil, 0.0).latched
  {
    after := Then(cfg, events, SlotGranted(0));
    after := Then(cfg, after, FetchAnswered(0, Answered(limited), 0.0));
    assert Run(cfg, after).value.borrowers == {};
  }

  lemma {:induction false} Then(cfg: Config, events: seq<Event>, step: Step) returns (after: seq<Event>)
    requires cfg.limits.max >= 1 && Run(cfg, events).Some? && Enabled(cfg, Run(cfg, events).value, step, 0.0)
    ensures Run(cfg, after) == Some(Apply(cfg, Run(cfg, events).value, step, 0.0))
  {
    after := events + [Event(step, 0.0)];
    assert after[..|events|] == events;
  }

  /** Two requests through every gate, both waiting for a slot. */
  lemma {:induction false} TwoWaiting(cfg: Config, req: Request, nothing: Response) returns (events: seq<Event>)
    requires cfg.limits.max >= 1 && Precheck(cfg, req).Ok?
    requires IsCacheableNull(nothing) && "set-cookie" !in nothing.headers
    ensures Run(cfg, events).Some?
    ensures var s, a := Run(cfg, events).value, Precheck(cfg, req).value;
            && s.tasks == map[0 := AwaitSlot(a), 1 := AwaitSlot(a)] && s.gate.probedOk && Fresh(s)
  {
    var a := Precheck(cfg, req).value;
    events := FirstProbes(cfg, req, a);
    events := FirstPasses(cfg, events, a, nothing);
    events := SecondWaits(cfg, events, req);
  }

  lemma {:induction false} FirstProbes(cfg: Config, req: Request, a: Admitted) returns (events: seq<Event>)
    requires cfg.limits.max >= 1 && Precheck(cfg, req) == Ok(a)
    ensures Run(cfg, events).Some?
    ensures var s := Run(cfg, events).value;
            && s.tasks == map[0 := ProbingNull(Verify(a), None)] && s.now == 0.0 && s.borrowers == {}
            && s.gate.blockedUntil == None && s.gate.cache == SHUT.cache
  {
    assert Gated(cfg, SHUT, Ok(a), 0.0) == Started(SHUT, NeedLock(a));
    events := Then(cfg, [], CallVerify(0, req));
    assert Run(cfg, events).value.gate == SHUT;
    assert Run(cfg, events).value.tasks == map[0 := AwaitLock(Verify(a))];
    events := Then(cfg, events, LockGranted(0));
  }

  ghost predicate Fresh(s: State) {
    s.now == 0.0 && s.borrowers == {} && s.gate.blockedUntil == None && s.gate.cache == SHUT.cache
  }

  lemma {:induction false} FirstPasses(cfg: Config, events: seq<Event>, a: Admitted, nothing: Response)
      returns (after: seq<Event>)
    requires cfg.limits.max >= 1 && Run(cfg, events).Some?
    requires IsCacheableNull(nothing) && "set-cookie" !in nothing.headers
    requires var s := Run(cfg, events).value; Fresh(s) && s.tasks == map[0 := ProbingNull(Verify(a), None)]
    ensures Run(cfg, after).Some?
    ensures var s := Run(cfg, after).value; Fresh(s) && s.gate.probedOk && s.tasks == map[0 := AwaitSlot(a)]
  {
    BareMoves(cfg, Run(cfg, events).value, a, nothing);
    after := Then(cfg, events, ProbeAnswered(0, Answered(nothing)));
    after := BearerPasses(cfg, after, a, nothing);
  }

  lemma {:induction false} BareMoves(cfg: Config, s: State, a: Admitted, nothing: Response)
    requires IsCacheableNull(nothing) && Fresh(s) && s.tasks == map[0 := ProbingNull(Verify(a), None)]
    ensures var s' := ProbeStep(cfg, s, 0, Answered(nothing), 0.0);
            Fresh(s') && s'.tasks == map[0 := ProbingBearer(Verify(a), None)]
  {
  }

  lemma {:induction false} BearerPasses(cfg: Config, events: seq<Event>, a: Admitted, nothing: Response)
      returns (after: seq<Event>)
    requires cfg.limits.max >= 1 && Run(cfg, events).Some? && "set-cookie" !in nothing.headers
    requires var s := Run(cfg, events).value; Fresh(s) && s.tasks == map[0 := ProbingBearer(Verify(a), None)]
    ensures Run(cfg, after).Some?
    ensures var s := Run(cfg, after).value; Fresh(s) && s.gate.probedOk && s.tasks == map[0 := AwaitSlot(a)]
  {
    after := Then(cfg, events, ProbeAnswered(0, Answered(nothing)));
  }

  lemma {:induction false} SecondWaits(cfg: Config, events: seq<Event>, req: Request) returns (after: seq<Event>)
    requires cfg.limits.max >= 1 && Precheck(cfg, req).Ok? && Run(cfg, events).Some?
    requires var s := Run(cfg, events).value;
             && s.tasks == map[0 := AwaitSlot(Precheck(cfg, req).value)] && s.now == 0.0 && s.borrowers == {}
             && s.gate.probedOk && s.gate.blockedUntil == None && s.gate.cache == SHUT.cache
    ensures Run(cfg, after).Some?
    ensures var s, a := Run(cfg, after).value, Precheck(cfg, req).value;
            && s.tasks == map[0 := AwaitSlot(a), 1 := AwaitSlot(a)] && s.gate.probedOk && Fresh(s)
  {
    after := Then(cfg, events, CallVerify(1, req));
  }
}
