/** The remote verifier's gates: one function, and one method that implements it, per stretch of code
    between awaits. */
module RemoteVerifier {
  import opened Wrappers
  import opened OrderedDict
  import opened Throttle
  import opened CookieChunks
  import opened SignedCookie
  import Pipeline = CookiePipeline
  import opened RemoteResponse
  import Cache = NegativeCache
  import Backoffs = BackoffLatch

  const PROBE_RETRY_INTERVAL: Time := 10.0

  /** A frozen snapshot of the request's own CSRF facts; the policy decides on it and the token. */
  type Facts = nat

  datatype Config = Config(
    base: string,
    secrets: seq<string>,
    hmac: Hmac,
    csrfAllows: (Facts, string) -> bool,
    digest: string -> Cache.Key,
    limits: Cache.Limits,
    concurrency: nat,
    refuseUnsignedBearer: bool,
    parseInt: ParseInt)

  /** What `extract` handed over. */
  datatype Request = Request(pairs: seq<Pair>, facts: Facts)

  /** A request past every local check: what will be forwarded, and whether a keyring vouched for it. */
  datatype Admitted = Admitted(name: string, material: string, token: string, verified: bool)

  datatype Outcome = Session(record: Record) | Refused(refusal: Refusal)

  // ---- the local checks

  /** `False` is "no secret configured"; a bad signature is a refusal. */
  function RungTwo(cfg: Config, material: string): Result<bool, Refusal> {
    if cfg.secrets == [] then Ok(false)
    else match ParseSignedValue(material)
      case Err(_) => Err(InvalidCredential)
      case Ok(p) => if Accepts(cfg.hmac, cfg.secrets, p.token, p.signature) then Ok(true) else Err(InvalidCredential)
  }

  /** Structure, then CSRF, then the keyring. */
  function Precheck(cfg: Config, req: Request): Result<Admitted, Refusal> {
    match ResolveNamedCookie(req.pairs, cfg.base)
    case Err(_) => Err(InvalidCredential)
    case Ok(named) =>
      match RungOne(named.value)
      case Err(_) => Err(InvalidCredential)
      case Ok(token) =>
        if !cfg.csrfAllows(req.facts, token) then Err(CsrfFailure)
        else match RungTwo(cfg, named.value)
          case Err(r) => Err(r)
          case Ok(verified) => Ok(Admitted(named.name, named.value, token, verified))
  }

  /** A request is admitted exactly when its cookie resolves, decodes to a capped token and some signature,
      passes CSRF, and - with a keyring configured - is signed by one of its entries for that very token. */
  lemma {:induction false} AdmittedExactly(cfg: Config, req: Request, a: Admitted)
    ensures Precheck(cfg, req) == Ok(a) <==>
      && a.name == cfg.base && ResolveNamedCookie(req.pairs, cfg.base) == Ok(Pair(cfg.base, a.material))
      && RungOne(a.material) == Ok(a.token) && cfg.csrfAllows(req.facts, a.token)
      && a.verified == (cfg.secrets != [])
      && (a.verified ==> Pipeline.SignedValue(a.material, a.token, cfg.hmac, cfg.secrets))
  {
    ResolvesUnderBase(req.pairs, cfg.base);
    RungTwoExactly(cfg, a.material, a.token);
  }

  lemma {:induction false} ResolvesUnderBase(pairs: seq<Pair>, base: string)
    ensures ResolveNamedCookie(pairs, base).Ok? ==> ResolveNamedCookie(pairs, base).value.name == base
  {
  }

  /** Where the looser rung read `token`, the keyring's rung passes exactly on a signature for that token. */
  lemma {:induction false} RungTwoExactly(cfg: Config, material: string, token: string)
    ensures RungOne(material) == Ok(token) ==>
      RungTwo(cfg, material) ==
        if cfg.secrets == [] then Ok(false)
        else if Pipeline.SignedValue(material, token, cfg.hmac, cfg.secrets) then Ok(true)
        else Err(InvalidCredential)
  {
    if RungOne(material) == Ok(token) {
      RungsReadOneToken(material);
      RungOneTokenIsNotEmpty(material);
      Pipeline.ProvenValueExactly(material, t => true, cfg.hmac, cfg.secrets, token);
    }
  }

  lemma {:induction false} RungOneTokenIsNotEmpty(material: string)
    ensures RungOne(material).Ok? ==> RungOne(material).value != ""
  {
  }

  // ---- the shared fields

  datatype Gate = Gate(
    cache: Cache.Entries, blockedUntil: Option<Time>,
    probedOk: bool, contractFailed: bool, probeAttemptedAt: Option<Time>)

  const SHUT: Gate := Gate(Empty(), None, false, false, None)

  datatype Begun = Stop(refusal: Refusal) | Proceed(admitted: Admitted) | NeedLock(admitted: Admitted)

  datatype Started = Started(gate: Gate, begun: Begun)

  /** The negative cache, the latch, readiness: the gates past the local checks. */
  function Gates(cfg: Config, g: Gate, a: Admitted, now: Time): Started {
    var looked := Cache.Holds(cfg.limits, g.cache, cfg.digest(a.material), now);
    var g1 := g.(cache := looked.entries);
    if looked.held then Started(g1, Stop(NullOutcome(a.verified)))
    else
      var asked := Backoffs.Latched(g1.blockedUntil, now);
      var g2 := g1.(blockedUntil := asked.blockedUntil);
      if asked.latched then Started(g2, Stop(AuthServiceUnavailable))
      else if g2.probedOk then Started(g2, Proceed(a))
      else if g2.contractFailed then Started(g2, Stop(ConfigurationError))
      else Started(g2, NeedLock(a))
  }

  function Gated(cfg: Config, g: Gate, checked: Result<Admitted, Refusal>, now: Time): Started {
    match checked
    case Err(r) => Started(g, Stop(r))
    case Ok(a) => Gates(cfg, g, a, now)
  }

  /** From the call to its first await. */
  function Begin(cfg: Config, g: Gate, req: Request, now: Time): Started {
    Gated(cfg, g, Precheck(cfg, req), now)
  }

  datatype Locked = Ready | Raise(refusal: Refusal) | Probe(gate: Gate, previous: Option<Time>)

  /** Under the probe lock everything is read again before a probe is started. */
  function UnderLock(g: Gate, now: Time): Locked {
    if g.probedOk then Ready
    else if g.contractFailed then Raise(ConfigurationError)
    else if !MayStart(g.probeAttemptedAt, PROBE_RETRY_INTERVAL, now) then Raise(AuthServiceUnavailable)
    else Probe(g.(probeAttemptedAt := Some(now)), g.probeAttemptedAt)
  }

  /** What one transport call came to. A library error is re-raised as it is; anything else that failed
      is unavailability. */
  datatype Transported = Answered(response: Response) | Failed | LibraryError(refusal: Refusal)

  datatype Verdict = More | Passed | Contract | Unreached(refusal: Refusal)

  function Raised(refusal: Refusal): Verdict {
    if refusal == ConfigurationError then Contract else Unreached(refusal)
  }

  /** The bare request must answer `200` with a JSON `null`. */
  function NullContract(result: Transported): Verdict {
    match result
    case Answered(response) => if IsCacheableNull(response) then More else Contract
    case Failed => Unreached(AuthServiceUnavailable)
    case LibraryError(r) => Raised(r)
  }

  /** The bearer rung: advisory, every failure of its own passes; refusing, it is a rung like the first. */
  function BearerRung(result: Transported, refuse: bool): Verdict {
    match result
    case Answered(response) => if refuse && "set-cookie" in response.headers then Contract else Passed
    case Failed => if refuse then Unreached(AuthServiceUnavailable) else Passed
    case LibraryError(r) => if refuse then Raised(r) else Passed
  }

  function Concluded(g: Gate, verdict: Verdict): Gate {
    match verdict
    case Passed => g.(probedOk := true)
    case Contract => g.(contractFailed := true)
    case _ => g
  }

  function Abandoned(g: Gate, previous: Option<Time>): Gate { g.(probeAttemptedAt := previous) }

  /** Expiry, then the ban, on a record whose token is the one forwarded. */
  function SessionFrom(record: Record, token: string, wall: real): Outcome {
    if record.token != token then Refused(InvalidCredential)
    else if record.expiresAt <= wall then Refused(SessionExpired)
    else if record.banned == Some(true) && !(record.banExpires.Some? && record.banExpires.value <= wall)
    then Refused(SessionRevoked)
    else Session(record)
  }

  function Read(response: Response, a: Admitted, wall: real): Outcome {
    match SessionDocument(response, a.verified)
    case Err(r) => Refused(r)
    case Ok(record) => SessionFrom(record, a.token, wall)
  }

  datatype Settled = Settled(gate: Gate, outcome: Outcome)

  /** From the fetch returning to the outcome: observe, remember, read. */
  function Settle(cfg: Config, g: Gate, a: Admitted, result: Transported, now: Time, wall: real): Settled
    requires cfg.limits.max >= 1
  {
    match result
    case Failed => Settled(g, Refused(AuthServiceUnavailable))
    case LibraryError(r) => Settled(g, Refused(r))
    case Answered(response) =>
      var g1 := g.(blockedUntil := Backoffs.Observe(g.blockedUntil, response, cfg.parseInt, now).blockedUntil);
      var g2 := if IsCacheableNull(response)
                then g1.(cache := Cache.Remember(cfg.limits, g1.cache, cfg.digest(a.material), now)) else g1;
      Settled(g2, Read(response, a, wall))
  }

  class RemoteVerifier {
    const cfg: Config
    const cache: Cache.NegativeCache
    const backoff: Backoffs.BackoffLatch
    var probedOk: bool
    var contractFailed: bool
    var probeAttemptedAt: Option<Time>

    ghost predicate Valid()
      reads this, cache
    {
      cache.Valid() && cache.limits == cfg.limits
    }

    ghost function State(): Gate
      reads this, cache, backoff
    {
      Gate(cache.entries, backoff.blockedUntil, probedOk, contractFailed, probeAttemptedAt)
    }

    constructor (cfg: Config)
      requires cfg.limits.max >= 1
      ensures Valid() && this.cfg == cfg && State() == SHUT && fresh(cache) && fresh(backoff)
    {
      this.cfg := cfg;
      cache := new Cache.NegativeCache(cfg.limits);
      backoff := new Backoffs.BackoffLatch();
      probedOk, contractFailed, probeAttemptedAt := false, false, None;
    }

    method BeginVerify(req: Request, now: Time) returns (begun: Begun)
      requires Valid()
      modifies cache, backoff
      ensures Valid() && Started(State(), begun) == Begin(cfg, old(State()), req, now)
    {
      var checked := Precheck(cfg, req);
      if checked.Err? { return Stop(checked.error); }
      var a := checked.value;
      var held := cache.HoldsAt(cfg.digest(a.material), now);
      if held { return Stop(NullOutcome(a.verified)); }
      var latched := backoff.LatchedAt(now);
      if latched { return Stop(AuthServiceUnavailable); }
      if probedOk { return Proceed(a); }
      if contractFailed { return Stop(ConfigurationError); }
      return NeedLock(a);
    }

    /** Under the lock: `probing` carries the stamp a cancellation must hand back. */
    method EnterProbeLock(now: Time) returns (verdict: Locked)
      requires Valid()
      modifies this
      ensures Valid() && verdict == UnderLock(old(State()), now)
      ensures State() == if verdict.Probe? then verdict.gate else old(State())
    {
      if probedOk { return Ready; }
      if contractFailed { return Raise(ConfigurationError); }
      if !MayStart(probeAttemptedAt, PROBE_RETRY_INTERVAL, now) { return Raise(AuthServiceUnavailable); }
      var previous := probeAttemptedAt;
      probeAttemptedAt := Some(now);
      return Probe(Gate(cache.entries, backoff.blockedUntil, false, false, probeAttemptedAt), previous);
    }

    method Conclude(verdict: Verdict)
      requires Valid()
      modifies this
      ensures Valid() && State() == Concluded(old(State()), verdict)
    {
      match verdict {
        case Passed => probedOk := true;
        case Contract => contractFailed := true;
        case _ =>
      }
    }

    method AbandonProbe(previous: Option<Time>)
      requires Valid()
      modifies this
      ensures Valid() && State() == Abandoned(old(State()), previous)
    {
      probeAttemptedAt := previous;
    }

    method SettleFetch(a: Admitted, result: Transported, now: Time, wall: real) returns (outcome: Outcome)
      requires Valid()
      modifies cache, backoff
      ensures Valid() && Settled(State(), outcome) == Settle(cfg, old(State()), a, result, now, wall)
    {
      match result {
        case Failed => return Refused(AuthServiceUnavailable);
        case LibraryError(r) => return Refused(r);
        case Answered(response) =>
          var warned := backoff.ObserveAt(response, cfg.parseInt, now);
          if IsCacheableNull(response) {
            cache.RememberAt(cfg.digest(a.material), now);
          }
          return Read(response, a, wall);
      }
    }
  }
}
