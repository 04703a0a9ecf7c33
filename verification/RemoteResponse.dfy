/** One get-session response read exhaustively: a record, or the refusal it maps to. */
module RemoteResponse {
  import opened Wrappers
  import opened Lists
  import opened PyText
  import opened MediaTypes

  const RATE_LIMITED := 429
  const DEFAULT_BACKOFF := 5
  const MIN_BACKOFF := 1
  const MAX_BACKOFF := 60
  const RETRY_AFTER_HEADERS := ["retry-after", "x-retry-after"]

  /** The public refusal classes. */
  datatype Refusal =
    | InvalidCredential | CsrfFailure | SessionExpired | SessionRevoked
    | AuthServiceUnavailable | ConfigurationError

  /** What a readable `{session, user}` document promotes. `banned` absent means no ban state at all. */
  datatype Record = Record(token: string, expiresAt: real, banned: Option<bool>, banExpires: Option<real>)

  /** A JSON body, as far as the outcome table looks at it. */
  datatype Body = Null | Unparseable | NotObject | Unreadable | Document(record: Record)

  /** Header names arrive lowercased. */
  datatype Response = Response(status: int, headers: map<string, string>, body: Body)

  predicate IsJson(response: Response) {
    MediaType(if "content-type" in response.headers then response.headers["content-type"] else "")
      == "application/json"
  }

  function NullOutcome(signatureVerified: bool): Refusal {
    if signatureVerified then SessionRevoked else InvalidCredential
  }

  function SessionDocument(response: Response, signatureVerified: bool): Result<Record, Refusal> {
    if response.status != 200 then Err(AuthServiceUnavailable)
    else if !IsJson(response) then Err(AuthServiceUnavailable)
    else match response.body
      case Unparseable => Err(AuthServiceUnavailable)
      case Null => Err(NullOutcome(signatureVerified))
      case NotObject => Err(AuthServiceUnavailable)
      case Unreadable => Err(AuthServiceUnavailable)
      case Document(record) => Ok(record)
  }

  predicate IsCacheableNull(response: Response) {
    response.status == 200 && IsJson(response) && response.body.Null?
  }

  /** The one cacheable outcome is exactly the one that says anything about the credential: every other
      response is a record or an unavailable service. */
  lemma {:induction false} CacheableExactlyWhenNullOutcome(response: Response, signatureVerified: bool)
    ensures IsCacheableNull(response) <==>
      SessionDocument(response, signatureVerified) == Err(NullOutcome(signatureVerified))
    ensures !IsCacheableNull(response) ==>
      SessionDocument(response, signatureVerified).Ok?
      || SessionDocument(response, signatureVerified) == Err(AuthServiceUnavailable)
  {
  }

  /** The header is there and declares JSON. */
  ghost predicate SaysJson(response: Response) {
    "content-type" in response.headers && Declares(response.headers["content-type"], "application/json")
  }

  lemma {:induction false} IsJsonExactly(response: Response)
    ensures IsJson(response) <==> SaysJson(response)
  {
    var media := "application/json";
    assert Bare(media);
    if "content-type" in response.headers {
      MediaTypeExactly(response.headers["content-type"], media);
    } else {
      assert Split("", ';') == [""] && Strip("") == "";
    }
  }

  /** A response says whether the session is there only as a `200` in JSON. `null` there means gone where the
      signature was verified and never established where it was not; a document there is what it carries; and
      anything else, there or not, is an unavailable service. */
  lemma {:induction false} ResponseIsReadExactly(response: Response, signatureVerified: bool)
    ensures ReadsAs(response, signatureVerified, SaysJson(response))
  {
    IsJsonExactly(response);
    JsonIsReadExactly(response, signatureVerified, IsJson(response));
  }

  ghost predicate ReadsAs(response: Response, signatureVerified: bool, json: bool) {
    var says, read := response.status == 200 && json, SessionDocument(response, signatureVerified);
    && (forall record :: read == Ok(record) <==> says && response.body == Document(record))
    && (read == Err(SessionRevoked) <==> says && response.body == Null && signatureVerified)
    && (read == Err(InvalidCredential) <==> says && response.body == Null && !signatureVerified)
    && (read == Err(AuthServiceUnavailable) <==> !says || (response.body != Null && !response.body.Document?))
  }

  lemma {:induction false} JsonIsReadExactly(response: Response, signatureVerified: bool, json: bool)
    requires json <==> IsJson(response)
    ensures ReadsAs(response, signatureVerified, json)
  {
  }

  /** What a header says to wait, if it is there and is a number. */
  function SaysWait(headers: map<string, string>, name: string, parse: ParseInt): Option<int> {
    if name in headers then parse(Strip(headers[name])) else None
  }

  /** `retry-after` decides; failing it, `x-retry-after`; failing both, five seconds. The number that decides
      is the wait, brought into 1 to 60 seconds. */
  lemma {:induction false} WaitExactly(headers: map<string, string>, parse: ParseInt)
    ensures var wait := RetryAfter(RETRY_AFTER_HEADERS, headers, parse);
            var first, second := SaysWait(headers, "retry-after", parse), SaysWait(headers, "x-retry-after", parse);
            var decides := if first.Some? then first else if second.Some? then second else Some(5);
            && (1 <= decides.value <= 60 ==> wait == decides.value)
            && (decides.value < 1 ==> wait == 1) && (decides.value > 60 ==> wait == 60)
  {
    var names, rest := RETRY_AFTER_HEADERS, RETRY_AFTER_HEADERS[1..];
    assert names[0] == "retry-after" && rest[0] == "x-retry-after" && rest[1..] == [];
    assert RetryAfter(rest[1..], headers, parse) == 5;
    WaitStep(names, headers, parse);
    WaitStep(rest, headers, parse);
  }

  lemma {:induction false} WaitStep(names: seq<string>, headers: map<string, string>, parse: ParseInt)
    requires names != []
    ensures var says := SaysWait(headers, names[0], parse);
            RetryAfter(names, headers, parse) ==
              if says.None? then RetryAfter(names[1..], headers, parse)
              else if says.value < 1 then 1 else if says.value > 60 then 60 else says.value
  {
  }

  /** `int(raw.strip())`, or nothing where it raises. */
  type ParseInt = string -> Option<int>

  function Clamp(value: int): int {
    if value < MIN_BACKOFF then MIN_BACKOFF else if value > MAX_BACKOFF then MAX_BACKOFF else value
  }

  /** The first of `names` whose header is present and parses decides; none does, the default. */
  function RetryAfter(names: seq<string>, headers: map<string, string>, parse: ParseInt): (seconds: int)
    ensures MIN_BACKOFF <= seconds <= MAX_BACKOFF
  {
    if names == [] then DEFAULT_BACKOFF
    else
      var value := if names[0] in headers then parse(Strip(headers[names[0]])) else None;
      if value.Some? then Clamp(value.value) else RetryAfter(names[1..], headers, parse)
  }

  function Backoff(response: Response, parse: ParseInt): int {
    RetryAfter(RETRY_AFTER_HEADERS, response.headers, parse)
  }

  method RetryAfterSeconds(headers: map<string, string>, parse: ParseInt) returns (seconds: int)
    ensures MIN_BACKOFF <= seconds <= MAX_BACKOFF
    ensures seconds == RetryAfter(RETRY_AFTER_HEADERS, headers, parse)
  {
    for i := 0 to |RETRY_AFTER_HEADERS|
      invariant RetryAfter(RETRY_AFTER_HEADERS, headers, parse) == RetryAfter(RETRY_AFTER_HEADERS[i..], headers, parse)
    {
      var name := RETRY_AFTER_HEADERS[i];
      if name in headers {
        var value := parse(Strip(headers[name]));
        if value.Some? {
          return Clamp(value.value);
        }
      }
    }
    return DEFAULT_BACKOFF;
  }
}
