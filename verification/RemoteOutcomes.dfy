/** What every request is told, exactly: each step that can end one, from the request, upstream's answer and what
    the run has seen. */
module RemoteOutcomes {
  import opened Wrappers
  import opened Throttle
  import opened CookieChunks
  import opened SignedCookie
  import opened RemoteResponse
  import opened RemoteVerifier
  import opened RemoteRuns
  import opened RemoteReadiness
  import LatchedSends
  import Backoffs = BackoffLatch
  import Pipeline = CookiePipeline

  // ---- the call

  /** The cookie resolves and decodes to `token`, with some signature. */
  ghost predicate Reads(cfg: Config, req: Request, token: string) {
    var named := ResolveNamedCookie(req.pairs, cfg.base);
    named.Ok? && RungOne(named.value.value) == Ok(token)
  }

  ghost predicate Malformed(cfg: Config, req: Request) { forall token :: !Reads(cfg, req, token) }

  ghost predicate CrossSite(cfg: Config, req: Request) {
    exists token :: Reads(cfg, req, token) && !cfg.csrfAllows(req.facts, token)
  }

  /** There is a keyring, and none of it signed the token. */
  ghost predicate Forged(cfg: Config, req: Request) {
    cfg.secrets != [] &&
    exists token :: Reads(cfg, req, token) && cfg.csrfAllows(req.facts, token)
      && !Pipeline.SignedValue(ResolveNamedCookie(req.pairs, cfg.base).value.value, token, cfg.hmac, cfg.secrets)
  }

  /** What a request with no local fault asks to be forwarded. */
  ghost predicate Admits(cfg: Config, req: Request, a: Admitted) {
    && a.name == cfg.base && ResolveNamedCookie(req.pairs, cfg.base) == Ok(Pair(cfg.base, a.material))
    && Reads(cfg, req, a.token) && cfg.csrfAllows(req.facts, a.token)
    && a.verified == (cfg.secrets != [])
    && (a.verified ==> Pipeline.SignedValue(a.material, a.token, cfg.hmac, cfg.secrets))
  }

  /** The local checks come out in one of four ways. */
  lemma {:induction false} ChecksExactly(cfg: Config, req: Request)
    ensures match Precheck(cfg, req)
            case Ok(a) => Admits(cfg, req, a)
            case Err(r) => if CrossSite(cfg, req) then r == CsrfFailure
                           else r == InvalidCredential && (Malformed(cfg, req) || Forged(cfg, req))
    ensures forall a :: Admits(cfg, req, a) ==> Precheck(cfg, req) == Ok(a)
  {
    forall a ensures Admits(cfg, req, a) <==> Precheck(cfg, req) == Ok(a) { AdmittedExactly(cfg, req, a); }
    var named := ResolveNamedCookie(req.pairs, cfg.base);
    if named.Ok? && RungOne(named.value.value).Ok? {
      var token := RungOne(named.value.value).value;
      assert Reads(cfg, req, token);
      RungTwoExactly(cfg, named.value.value, token);
    }
  }

  /** The cookie was answered `null` within the TTL, and the verifier remembers it. */
  ghost predicate KnownGone(cfg: Config, g: Gate, a: Admitted, now: Time) {
    var key := cfg.digest(a.material);
    cfg.limits.ttl > 0.0 && key in g.cache.items && now - g.cache.items[key] < cfg.limits.ttl
  }

  /** A `null` about a cookie the keyring signed is a session that ended; about any other, no session. */
  function Gone(cfg: Config): Refusal { if cfg.secrets != [] then SessionRevoked else InvalidCredential }

  /** A request with no local fault is refused for a cookie known to be gone, then for a 429 window, then, if no
      probe passed, for a broken contract; or it goes on to its slot or to the probe. */
  lemma {:induction false} AdmittedCallExactly(
      cfg: Config, events: seq<Event>, t: Task, req: Request, a: Admitted, now: Time)
    requires cfg.limits.max >= 1 && Run(cfg, events).Some? && LatchedSends.ReachedBy(events, now)
    requires Admits(cfg, req, a)
    ensures var s := Run(cfg, events).value;
            VerifyStep(cfg, s, t, req, now).tasks[t] ==
              if KnownGone(cfg, s.gate, a, now) then Finished(Refused(Gone(cfg)))
              else if Backoffs.Inside(LatchedSends.WindowsOf(events, cfg.parseInt), now)
              then Finished(Refused(AuthServiceUnavailable))
              else if HasPassed(cfg, events) then AwaitSlot(a)
              else if HasBroken(cfg, events) then Finished(Refused(ConfigurationError))
              else AwaitLock(Verify(a))
  {
    ChecksExactly(cfg, req);
    LatchedSends.LatchIsWindows(cfg, events, now);
    ReadinessExactly(cfg, events);
    GatesExactly(cfg, Run(cfg, events).value.gate, a, now);
  }

  lemma {:induction false} GatesExactly(cfg: Config, g: Gate, a: Admitted, now: Time)
    requires a.verified == (cfg.secrets != [])
    ensures Gates(cfg, g, a, now).begun ==
      if KnownGone(cfg, g, a, now) then Stop(Gone(cfg))
      else if LatchedSends.Open(g.blockedUntil, now) then Stop(AuthServiceUnavailable)
      else if g.probedOk then Proceed(a)
      else if g.contractFailed then Stop(ConfigurationError)
      else NeedLock(a)
  {
  }

  /** A request with one is refused for it. */
  lemma {:induction false} FaultyCallExactly(cfg: Config, s: State, t: Task, req: Request, now: Time)
    requires forall a :: !Admits(cfg, req, a)
    ensures VerifyStep(cfg, s, t, req, now).tasks[t] ==
      Finished(Refused(if CrossSite(cfg, req) then CsrfFailure else InvalidCredential))
    ensures !CrossSite(cfg, req) ==> Malformed(cfg, req) || Forged(cfg, req)
  {
    ChecksExactly(cfg, req);
  }

  // ---- the slot

  /** A request that waited too long for a slot. */
  lemma {:induction false} SaturatedExactly(cfg: Config, s: State, t: Task, now: Time)
    requires cfg.limits.max >= 1 && Enabled(cfg, s, SlotTimedOut(t), now)
    ensures Apply(cfg, s, SlotTimedOut(t), now).tasks[t] == Finished(Refused(AuthServiceUnavailable))
  {
  }

  // ---- the answer

  /** A `200` in JSON with this record. */
  ghost predicate Shows(response: Response, record: Record) {
    response.status == 200 && SaysJson(response) && response.body == Document(record)
  }

  /** A ban that is on, for good or past `wall`. Ban state unknown, or off, is no ban. */
  predicate Banned(record: Record, wall: real) {
    record.banned == Some(true) && (record.banExpires.None? || record.banExpires.value > wall)
  }

  /** A record of the forwarded token that has not expired, its user not banned. */
  ghost predicate Live(response: Response, token: string, record: Record, wall: real) {
    Shows(response, record) && record.token == token && record.expiresAt > wall && !Banned(record, wall)
  }

  ghost predicate ShowsOther(response: Response, token: string) {
    exists record :: Shows(response, record) && record.token != token
  }

  ghost predicate ShowsExpired(response: Response, token: string, wall: real) {
    exists record :: Shows(response, record) && record.token == token && record.expiresAt <= wall
  }

  ghost predicate ShowsBanned(response: Response, token: string, wall: real) {
    exists record ::
      Shows(response, record) && record.token == token && record.expiresAt > wall && Banned(record, wall)
  }

  ghost predicate ShowsNull(response: Response) {
    response.status == 200 && SaysJson(response) && response.body == Null
  }

  ghost predicate ShowsNothing(response: Response) {
    !ShowsNull(response) && forall record :: !Shows(response, record)
  }

  /** How an answer comes out, each outcome exactly when: a session for a live record of the forwarded token,
      and each refusal for its one cause or two. */
  lemma {:induction false} AnswerIsReadExactly(response: Response, a: Admitted, wall: real)
    ensures var o := Read(response, a, wall);
            && (forall record :: o == Session(record) <==> Live(response, a.token, record, wall))
            && (o == Refused(SessionExpired) <==> ShowsExpired(response, a.token, wall))
            && (o == Refused(SessionRevoked) <==>
                  (ShowsNull(response) && a.verified) || ShowsBanned(response, a.token, wall))
            && (o == Refused(InvalidCredential) <==>
                  (ShowsNull(response) && !a.verified) || ShowsOther(response, a.token))
            && (o == Refused(AuthServiceUnavailable) <==> ShowsNothing(response))
  {
    ResponseIsReadExactly(response, a.verified);
    if response.body.Document? {
      RecordIsReadExactly(response.body.record, a.token, wall);
      if response.status == 200 && SaysJson(response) { assert Shows(response, response.body.record); }
    }
  }

  lemma {:induction false} RecordIsReadExactly(record: Record, token: string, wall: real)
    ensures SessionFrom(record, token, wall) ==
      if record.token != token then Refused(InvalidCredential)
      else if record.expiresAt <= wall then Refused(SessionExpired)
      else if Banned(record, wall) then Refused(SessionRevoked)
      else Session(record)
  {
  }

  /** And a fetch that brought no answer is an unavailable service, or the library's own error as it is. */
  lemma {:induction false} FetchEndsExactly(
      cfg: Config, s: State, t: Task, result: Transported, now: Time, wall: real)
    requires cfg.limits.max >= 1 && t in s.tasks && s.tasks[t].InFlight?
    ensures FetchStep(cfg, s, t, result, now, wall).tasks[t] == Finished(
      match result
      case Failed => Refused(AuthServiceUnavailable)
      case LibraryError(r) => Refused(r)
      case Answered(response) => Read(response, s.tasks[t].admitted, wall))
  {
  }

  /** So a live document is a session, whatever else is going on. */
  lemma {:induction false} LiveDocumentIsASession(
      cfg: Config, s: State, t: Task, response: Response, record: Record, now: Time, wall: real)
    requires cfg.limits.max >= 1 && t in s.tasks && s.tasks[t].InFlight?
    requires Live(response, s.tasks[t].admitted.token, record, wall)
    ensures FetchStep(cfg, s, t, Answered(response), now, wall).tasks[t] == Finished(Session(record))
  {
    FetchEndsExactly(cfg, s, t, Answered(response), now, wall);
    AnswerIsReadExactly(response, s.tasks[t].admitted, wall);
  }

  // ---- every refusal

  /** The ways a request comes to be refused as `r`, at one step of the run. */
  ghost predicate Cause(cfg: Config, events: seq<Event>, s: State, e: Event, r: Refusal)
    requires cfg.limits.max >= 1 && Enabled(cfg, s, e.step, e.at)
  {
    match e.step
    case CallVerify(_, req) =>
      || (r == CsrfFailure && CrossSite(cfg, req))
      || (r == InvalidCredential && (Malformed(cfg, req) || Forged(cfg, req)))
      || (exists a :: Admits(cfg, req, a) && (
            || (r == Gone(cfg) && KnownGone(cfg, s.gate, a, e.at))
            || (r == AuthServiceUnavailable && Backoffs.Inside(LatchedSends.WindowsOf(events, cfg.parseInt), e.at))
            || (r == ConfigurationError && HasBroken(cfg, events))))
    case CallPrepare(_) => r == ConfigurationError && HasBroken(cfg, events)
    case LockGranted(t) =>
      || (r == ConfigurationError && HasBroken(cfg, events))
      || (HeldBack(s, e.at) && r == if s.tasks[t].job.Verify? then AuthServiceUnavailable else ConfigurationError)
    case ProbeAnswered(t, result) =>
      || (r == ConfigurationError && Breaks(cfg, s, e.step))
      || (!result.Answered? && s.tasks[t].job.Verify? && r == Told(result))
      || (!result.Answered? && s.tasks[t].job.Prepare?
          && r == if Told(result) == AuthServiceUnavailable then ConfigurationError else Told(result))
    case SlotTimedOut(_) => r == AuthServiceUnavailable
    case FetchAnswered(t, result, wall) =>
      if !result.Answered? then r == Told(result)
      else
        var a := s.tasks[t].admitted;
        || (r == SessionExpired && ShowsExpired(result.response, a.token, wall))
        || (r == SessionRevoked
            && ((ShowsNull(result.response) && a.verified) || ShowsBanned(result.response, a.token, wall)))
        || (r == InvalidCredential
            && ((ShowsNull(result.response) && !a.verified) || ShowsOther(result.response, a.token)))
        || (r == AuthServiceUnavailable && ShowsNothing(result.response))
    case _ => false
  }

  /** What a transport call that brought no answer is told as. */
  function Told(result: Transported): Refusal
    requires !result.Answered?
  {
    if result.Failed? then AuthServiceUnavailable else result.refusal
  }

  /** In every interleaving, every refusal has its cause when it is given. */
  lemma {:induction false} EveryRefusalIsJustified(cfg: Config, events: seq<Event>, t: Task)
    requires cfg.limits.max >= 1 && events != [] && Run(cfg, events).Some?
    requires var before, s' := Run(cfg, events[..|events| - 1]).value, Run(cfg, events).value;
             && t in s'.tasks && s'.tasks[t].Finished? && s'.tasks[t].outcome.Refused?
             && (t in before.tasks ==> !before.tasks[t].Finished?)
    ensures var n := |events| - 1;
            Cause(cfg, events[..n], Run(cfg, events[..n]).value, events[n],
                  Run(cfg, events).value.tasks[t].outcome.refusal)
  {
    var n := |events| - 1;
    var before, e, s := events[..n], events[n], Run(cfg, events[..n]).value;
    LatchedSends.TimesRise(cfg, events);
    match e.step {
      case CallVerify(u, req) => CallRefusalHasCause(cfg, before, e);
      case CallPrepare(u) => PrepareLeadsExactly(cfg, before, u, e.at);
      case LockGranted(u) => LockLeadsExactly(cfg, before, u, e.at);
      case ProbeAnswered(u, result) => ProbeLeadsExactly(cfg, s, u, result, e.at);
      case FetchAnswered(u, result, wall) =>
        FetchEndsExactly(cfg, s, u, result, e.at, wall);
        if result.Answered? { ReadRefusalHasCause(result.response, s.tasks[u].admitted, wall); }
      case _ =>
    }
  }

  lemma {:induction false} ReadRefusalHasCause(response: Response, a: Admitted, wall: real)
    ensures Read(response, a, wall).Refused? ==>
      Read(response, a, wall).refusal in {SessionExpired, SessionRevoked, InvalidCredential, AuthServiceUnavailable}
    ensures var o := Read(response, a, wall);
            && (o == Refused(SessionExpired) ==> ShowsExpired(response, a.token, wall))
            && (o == Refused(SessionRevoked) ==>
                  (ShowsNull(response) && a.verified) || ShowsBanned(response, a.token, wall))
            && (o == Refused(InvalidCredential) ==>
                  (ShowsNull(response) && !a.verified) || ShowsOther(response, a.token))
            && (o == Refused(AuthServiceUnavailable) ==> ShowsNothing(response))
  {
    AnswerIsReadExactly(response, a, wall);
  }

  lemma {:induction false} CallRefusalHasCause(cfg: Config, events: seq<Event>, e: Event)
    requires cfg.limits.max >= 1 && Run(cfg, events).Some? && LatchedSends.ReachedBy(events, e.at)
    requires e.step.CallVerify? && Enabled(cfg, Run(cfg, events).value, e.step, e.at)
    requires VerifyStep(cfg, Run(cfg, events).value, e.step.t, e.step.req, e.at).tasks[e.step.t].Finished?
    ensures var pc := VerifyStep(cfg, Run(cfg, events).value, e.step.t, e.step.req, e.at).tasks[e.step.t];
            pc.outcome.Refused? && Cause(cfg, events, Run(cfg, events).value, e, pc.outcome.refusal)
  {
    var req := e.step.req;
    if a :| Admits(cfg, req, a) {
      AdmittedCallExactly(cfg, events, e.step.t, req, a, e.at);
    } else {
      FaultyCallExactly(cfg, Run(cfg, events).value, e.step.t, req, e.at);
    }
  }
}
