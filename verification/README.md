# Verified model of the session bridge's gates, caches and codecs

A Dafny model of the parts of `fastapi-better-auth` where a wrong answer would be an authentication
mistake: the remote verifier's outbound gate, the key-set cache, the signed-cookie codec, the secret's
acceptance rule, origin normalization, the outage latch and the capped body read.

| file | what it holds |
|---|---|
| `Prelude.dfy`, `PyText.dfy`, `MediaTypes.dfy`, `OrderedDict.dfy`, `Throttle.dfy` | optional values, list and text primitives, Python's insertion-ordered dict, media types, one-attempt-per-window throttling |
| `Utf8.dfy`, `Base64.dfy`, `PercentCoding.dfy` | the codecs, concretely: strict UTF-8 (RFC 3629), standard base64 (section 4 of RFC 4648), one percent-decode (section 2.1 of RFC 3986) |
| `SignedCookie.dfy`, `CookieChunks.dfy`, `CookieHeader.dfy`, `CookiePipeline.dfy` | a Cookie header down to a believed token |
| `SharedSecret.dfy` | the shortest repeating unit and what is refused at boot |
| `NegativeCache.dfy`, `BackoffLatch.dfy`, `RemoteResponse.dfy` | the remote verifier's parts |
| `RemoteVerifier.dfy` | its shared fields, one function and one method per stretch of code between awaits |
| `RemoteRuns.dfy`, `RemoteCalls.dfy`, `RemoteReadiness.dfy`, `RemoteOutcomes.dfy`, `LatchedSends.dfy`, `CacheOrder.dfy` | every interleaving of `verify` and `prepare`; what each outbound call owes; what readiness rests on; what every request is told, and why; calls inside a 429 window; a run whose cache falls out of order |
| `RemoteErasure.dfy`, `RemoteReplay.dfy`, `RemoteTransparency.dfy` | the cache against the uncached verifier: in every interleaving, its hits erased or made in full, and call by call |
| `KeySet.dfy`, `KeyRules.dfy`, `Jwks.dfy`, `JwksRuns.dfy`, `JwksReplies.dfy`, `JwksCallers.dfy`, `StaleAbsences.dfy`, `MissOrder.dfy` | a key-set document, the cache around it, every interleaving of `key_for`, what each caller is told, absences told from a stale set, the order misses are evicted in |
| `OutageLatch.dfy` | the sequential latch, and every interleaving of threads on it, the unlocked read included |
| `Capped.dfy`, `Urls.dfy`, `UrlAccepts.dfy`, `NonAsciiHosts.dfy` | the bounded read; `normalize_base_url` on a concrete `urlsplit`; which texts it accepts; what it does with a non-ASCII host |

How state is modelled. A class whose methods update fields is a class here, and each method is proved equal
to a function of the old state; the runs are built from those functions. A step of a run is one stretch of
code between awaits (for the outage latch, between accesses to shared memory), reads the clock once, and may
be followed by any other enabled step, so an interleaving theorem holds for every schedule. A cancellation
may strike at every await. The clock never runs backwards within a run; the cache's soundness, and
its transparency to calls made one after another, hold at any clock readings at all.

What is assumed. HMAC-SHA256 is any function to 32 bytes. The CSRF policy, on a request's own facts, is any
function of the token. The digest that keys the negative cache is any
function; only `CacheIsTransparent` needs it not to collide on the cookies of the run. A lock admits one
holder and a limiter lends at most `concurrency` slots; neither promises an order. `casefold`, Python's
`int()`, Unicode lowercasing, IP parsing and which authorities `urlsplit` refuses are parameters; `Lawful`
in `Urls.dfy` says what is assumed of the last three, and `ZonesAreV6` in `NonAsciiHosts.dfy` that only an
IPv6 literal has a zone identifier.

Where the code and its own words differ, the model follows the code.

- Both negative caches are described as evicting the entry closest to expiring. They evict by first
  insertion: remembering a held key again restamps it where it stands (`EvictionIgnoresRestamping`). A run
  keeps its entries oldest first exactly when it never remembers again a value with an older one behind it
  (`RunsKeepOrderExactly`), and two requests with one cookie in flight together are enough to break it
  (`CacheFallsOutOfOrder`). For the key-set cache that takes a failed fetch for a `kid` whose miss is still
  held (`MissesStayOrderedExactly`), and no configuration rules it out (`MissesFallOutOfOrder`). While either
  is in order, what it evicts is the closest to expiring (`EvictsClosestToExpiring`, of each).
- "A key set we trust does not carry it" can be told from a set that is no longer fresh, because a remembered
  miss is answered without looking at the set's age. Per call, `AbsentExactly` says exactly when; per
  configuration, `AbsenceIsFreshExactly` says it never happens exactly when misses are not remembered or
  refetching is never held back; `EveryReplyIsJustified` gives the bound that holds everywhere.
- A latched instance is said to answer without touching the network. The latch is read once per request,
  before the probe and the slot are waited for, so a request already past it can still send
  (`LatchedSendHappens`): exactly when a 429 that opens a window arrives between that look and the slot, and
  the backoff it asked for is not over (`LatchedSendExactly`).
- A non-ASCII host is said to be refused. The host is lowercased before it is looked at, so U+212A, whose
  lowercase is `k`, passes as the host `k` (`KelvinIsAccepted`). A host is refused as non-ASCII exactly when
  it still is once lowercased (`RefusedAsNonAsciiExactly`), and only ASCII hosts are accepted exactly when
  lowercasing turns no other into an acceptable one (`AcceptsOnlyAsciiExactly`).

## Model

| member | source | states |
|---|---|---|
| SharedSecret.RepeatingUnitIsShortest | src/fastapi_better_auth/_internal/shared_secret.py:217-223 | for every non-empty value the unit found, repeated, is exactly the value, and no shorter string repeats to it |
| SharedSecret.LeastRotationDivides | src/fastapi_better_auth/_internal/shared_secret.py:220-222 | the first place a word recurs in its own doubling divides its length, so cutting there leaves no remainder |
| SharedSecret.AcceptedExactly | src/fastapi_better_auth/_internal/shared_secret.py:165-200 | a secret is accepted exactly when it is non-empty, trimmed, encodable, no placeholder, and not a repetition of any unit under 32 characters |
| SharedSecret.ReportedUnitIsShortest | src/fastapi_better_auth/_internal/shared_secret.py:193-199 | the unit length in a repetition refusal is the least of all units the value repeats |
| Utf8.RoundTrip | src/fastapi_better_auth/_internal/cookie_parsing.py:202-211 | every string survives UTF-8 encoding and the strict decode |
| Utf8.DecodeIsExact | src/fastapi_better_auth/_internal/cookie_parsing.py:202-211 | the strict decoder accepts exactly one byte spelling of each string, so no overlong form or surrogate gets through |
| PercentCoding.UnquoteSpelling | src/fastapi_better_auth/_internal/cookie_parsing.py:202-211 | every percent-encoding of a string, any bytes escaped in either case, decodes to it in one pass |
| PercentCoding.NoPercentIsIdentity | src/fastapi_better_auth/_internal/cookie_parsing.py:209 | decoding run by run leaves text with no percent sign alone, so the early exit for it changes nothing |
| PercentCoding.UnquoteAtPercent | src/fastapi_better_auth/_internal/cookie_parsing.py:202-211 | a percent sign is an escape where two hex digits follow it and stands for itself where they do not |
| PercentCoding.UnquoteAtForeign | src/fastapi_better_auth/_internal/cookie_parsing.py:202-211 | a character that is not ASCII stands for itself, and the text on either side of it is decoded apart |
| PercentCoding.EscapeExactly | src/fastapi_better_auth/_internal/cookie_parsing.py:202-211 | an escape is a percent sign and two hex digits, the first the higher |
| Base64.LetterExactly | src/fastapi_better_auth/_internal/cookie_parsing.py:214-219 | the alphabet, letter by letter |
| Base64.PacksInOrder | src/fastapi_better_auth/_internal/signing.py:48-49 | bits keep their order: bytes read in base 256 and their letters' values read in base 64 are one number, but for the unused bits at its end |
| Base64.DecodeSpelling | src/fastapi_better_auth/_internal/cookie_parsing.py:214-219 | every base64 spelling of a byte string, canonical or not, decodes to it |
| Base64.OnlySpellingsDecode | src/fastapi_better_auth/_internal/cookie_parsing.py:214-219 | nothing else does: whatever decodes is a spelling of what it decodes to |
| Base64.SpellingsDiffer | src/fastapi_better_auth/_internal/signing.py:48-49 | spellings with different unused bits are different strings, so the encoder's own output is one of them |
| SignedCookie.ParseAcceptsExactly | src/fastapi_better_auth/_internal/cookie_parsing.py:153-199 | a value parses to (token, signature) exactly when, within the cap, it decodes to the two joined at the last dot, the token non-empty and the signature a spelling of some 32 bytes |
| SignedCookie.ShapeAdmitsExactlySpellings | src/fastapi_better_auth/_internal/cookie_parsing.py:181-194 | the 44-character check admits exactly the base64 spellings of 32 bytes |
| SignedCookie.FourSpellings | src/fastapi_better_auth/_internal/cookie_parsing.py:26-27 | each 32-byte digest has four spellings of 44 characters (section 3.5 of RFC 4648) |
| SignedCookie.SignedRoundTrip | src/fastapi_better_auth/_internal/cookie_parsing.py:153-199 | any percent-encoding of token, dot and base64 digest parses back to exactly that token and signature, dots in the token allowed |
| SignedCookie.AcceptedExactlyWhenSigned | src/fastapi_better_auth/_internal/signing.py:43-53 | an admitted signature is accepted exactly when it is the canonical spelling of a digest some keyring entry computes for the token |
| SignedCookie.OneSignaturePerToken | src/fastapi_better_auth/_internal/signing.py:43-53 | with one secret, of every spelling of every digest - all of which the shape check admits - exactly one is accepted per token: the canonical spelling of its HMAC |
| SignedCookie.OtherSpellingsAreRefused | src/fastapi_better_auth/_internal/signing.py:43-53 | the three other spellings of a digest some keyring entry did compute decode to it and pass the shape check, and the whole keyring refuses them |
| SignedCookie.VerifySignature | src/fastapi_better_auth/_internal/signing.py:23-57 | the accumulating loop with no early return answers the existential over the whole keyring, in both directions |
| SignedCookie.TwiceEncodedExactly | src/fastapi_better_auth/_internal/cookie_parsing.py:169-194 | for every token, digest and pair of encodings, a value encoded twice parses exactly when, within the cap, its first encoding left the separator and the signature unescaped; otherwise by which checks it is refused |
| SignedCookie.TwiceEncodedIsRefused | src/fastapi_better_auth/_internal/cookie_parsing.py:169-186 | so it is refused whenever the first encoding escaped the signature's pad |
| SignedCookie.RungOneAcceptsExactly | src/fastapi_better_auth/_internal/remote_verifier.py:628-664 | the structural rung accepts exactly the values that decode to a capped non-empty token and a non-empty signature |
| RemoteVerifier.AdmittedExactly | src/fastapi_better_auth/_internal/remote_verifier.py:425-430 | a request is admitted exactly when its cookie resolves and decodes to a capped token, CSRF allows it, and with a keyring configured some entry signed that very token: the looser rung and the keyring's read the same one |
| CookieChunks.AcceptableNames | src/fastapi_better_auth/_internal/cookie_parsing.py:79-91 | the set built holds exactly the base and its hundred chunk names |
| CookieChunks.AcceptableIsBaseXorChunk | src/fastapi_better_auth/_internal/cookie_parsing.py:251-258 | every name read is the base or a chunk name, never both |
| CookieChunks.ChunkNameIsChunk | src/fastapi_better_auth/_internal/cookie_parsing.py:229-258 | the index read from a chunk name is the one it was written with |
| CookieChunks.ResolveIsOrderFree | src/fastapi_better_auth/_internal/cookie_parsing.py:112-135 | the result, value or refusal, depends only on the multiset of pairs |
| CookieChunks.ResolveAcceptsExactly | src/fastapi_better_auth/_internal/cookie_parsing.py:222-286 | a value comes back exactly when the base arrived once and whole, or as pieces numbered from 0, in any order, whose join fits the cap |
| CookieChunks.RunRefusedExactly | src/fastapi_better_auth/_internal/cookie_parsing.py:268-276 | a chunk run is refused as such exactly when it has a repeat, a gap or no index 0 |
| CookieChunks.ReassemblyRoundTrip | src/fastapi_better_auth/_internal/cookie_parsing.py:261-283 | a value cut into 1 to 100 pieces and delivered in any permutation comes back whole, or is refused for its length alone |
| CookieHeader.CookiePairs | src/fastapi_better_auth/_internal/cookie_parsing.py:62-76 | the loop collects, in order and with duplicates, what each fragment parses to |
| CookieHeader.PairOfExactly | src/fastapi_better_auth/_internal/cookie_parsing.py:62-76 | a fragment says nothing without `=`, and otherwise what stands before its first one and after it, each trimmed |
| CookieHeader.PrintParse | src/fastapi_better_auth/_internal/cookie_parsing.py:62-76 | legal pairs survive printing and parsing, duplicates and order kept |
| CookieHeader.ParsePrintParse | src/fastapi_better_auth/_internal/cookie_parsing.py:62-76 | whatever is parsed from any header is legal, so printing it and parsing again changes nothing |
| CookieHeader.JoinedPairs | src/fastapi_better_auth/_internal/cookie_verifier.py:369-370 | however many lines a header came in, joining them parses to the lines' pairs in order |
| CookieHeader.ExtractsExactly | src/fastapi_better_auth/_internal/cookie_verifier.py:227-260 | a credential is present exactly when both caps hold and some pair is acceptable and not blank, and it is exactly those pairs, in header order, repeats kept |
| CookieHeader.ExtractedHasMaterial | src/fastapi_better_auth/_internal/cookie_parsing.py:127-135 | an extracted credential never reaches the "no session cookie material" refusal |
| CookiePipeline.ResolvedExactly | src/fastapi_better_auth/_internal/cookie_parsing.py:112-135 | pairs under the names that are read resolve to a value within the cap exactly when they are its one whole cookie or its 1 to 100 numbered pieces in any order |
| CookiePipeline.BelievedExactly | src/fastapi_better_auth/_internal/cookie_verifier.py:283-294 | end to end, for every header: a token is believed if and only if both caps hold, the readable pairs bring one value, it decodes to that non-empty token with what some keyring entry signs it as, and CSRF allows the request |
| CookiePipeline.BelievedExactlyWhenSigned | src/fastapi_better_auth/_internal/cookie_verifier.py:283-294 | a header that brings, whole or in pieces and among other cookies, an encoded signed token yields a cross-site refusal, the token, or a bad-signature refusal, CSRF deciding before the keyring |
| CookiePipeline.PrintedIsBelieved | src/fastapi_better_auth/_internal/cookie_verifier.py:227-294 | the same for a header printed from any legal pairs, decided by what the readable ones among them bring |
| NegativeCache.NegativeCache.HoldsAt | src/fastapi_better_auth/_internal/negative_cache.py:71-82 | the answer and the lazily expired state, and that the bound is kept |
| NegativeCache.NegativeCache.RememberAt | src/fastapi_better_auth/_internal/negative_cache.py:84-96 | the evicting loop's whole new state, order included, and that the bound is kept |
| NegativeCache.Bounded | src/fastapi_better_auth/_internal/negative_cache.py:66-69 | over every run the size never exceeds the bound |
| NegativeCache.HoldsIsSound | src/fastapi_better_auth/_internal/negative_cache.py:71-82 | a hit is only for a value last remembered less than the TTL ago |
| NegativeCache.Retained | src/fastapi_better_auth/_internal/negative_cache.py:84-96 | a remembered value keeps answering until its TTL, unless as many values as the bound, none already held, were inserted since it entered |
| NegativeCache.EvictionIgnoresRestamping | src/fastapi_better_auth/_internal/negative_cache.py:53-54 | in every full cache the first key is evicted next even if it was restamped last |
| NegativeCache.RunsKeepOrderExactly | src/fastapi_better_auth/_internal/negative_cache.py:71-96 | a run keeps its entries oldest first throughout exactly when it never remembers again a value with an older entry behind it |
| NegativeCache.EvictsClosestToExpiring | src/fastapi_better_auth/_internal/negative_cache.py:53-54 | from a full cache in that order the one entry evicted is the closest to expiring |
| CacheOrder.CacheFallsOutOfOrder | src/fastapi_better_auth/_internal/remote_verifier.py:439-442 | a run of the verifier whose cache falls out of order, for every configuration that holds two values and any two admitted requests with different digests |
| NegativeCache.RememberKeepsOrderExactly | src/fastapi_better_auth/_internal/negative_cache.py:84-96 | one remember keeps the order exactly when nothing older stands behind the value |
| RemoteResponse.CacheableExactlyWhenNullOutcome | src/fastapi_better_auth/_internal/remote_response.py:42-103 | the cacheable responses are exactly those mapped to the null outcome; every other is a record or an unavailable service |
| RemoteResponse.ResponseIsReadExactly | src/fastapi_better_auth/_internal/remote_response.py:42-86 | a record, a revoked session, no session and an unavailable service: each exactly for which status, media type, body and signature |
| MediaTypes.MediaTypeExactly | src/fastapi_better_auth/_internal/remote_response.py:143-145 | the type read from a Content-Type header is the declared one in any case, with space around it and parameters after it or none |
| RemoteResponse.WaitExactly | src/fastapi_better_auth/_internal/remote_response.py:106-122 | `retry-after` decides, failing it `x-retry-after`, failing both five seconds; a number in 1 to 60 is the wait itself, and any other the nearer end |
| RemoteResponse.RetryAfterSeconds | src/fastapi_better_auth/_internal/remote_response.py:106-122 | the first header present and readable decides, in order, and the wait is 1 to 60 seconds whatever it says |
| BackoffLatch.BackoffLatch.LatchedAt | src/fastapi_better_auth/_internal/remote_backoff.py:40-48 | the answer and the lazily cleared stamp |
| BackoffLatch.BackoffLatch.ObserveAt | src/fastapi_better_auth/_internal/remote_backoff.py:50-66 | the new stamp and whether it warned |
| BackoffLatch.LatchRefinesWindows | src/fastapi_better_auth/_internal/remote_backoff.py:40-66 | for responses in any order the latch is on exactly inside a reference set of pairwise disjoint windows of 1 to 60 seconds, and warns once per window |
| BackoffLatch.WindowsAreNeverRevised | src/fastapi_better_auth/_internal/remote_backoff.py:50-60 | whatever arrives after a window was opened, the stamp at any instant inside it is the end its own response gave it |
| BackoffLatch.WarningsAreBounded | src/fastapi_better_auth/_internal/remote_backoff.py:61-66 | any span of T seconds sees at most floor(T) + 1 warnings |
| RemoteVerifier.RemoteVerifier.BeginVerify | src/fastapi_better_auth/_internal/remote_verifier.py:421-437 | the stretch up to the first await: its verdict and the whole new state of cache and latch |
| RemoteVerifier.RemoteVerifier.EnterProbeLock | src/fastapi_better_auth/_internal/remote_verifier.py:487-508 | the stretch under the probe lock: everything read again, and the stamp a cancellation must hand back |
| RemoteVerifier.RemoteVerifier.Conclude | src/fastapi_better_auth/_internal/remote_verifier.py:510-523 | what a probe's verdict leaves remembered |
| RemoteVerifier.RemoteVerifier.AbandonProbe | src/fastapi_better_auth/_internal/remote_verifier.py:520-522 | a cancelled probe restores the stamp and nothing else |
| RemoteVerifier.RemoteVerifier.SettleFetch | src/fastapi_better_auth/_internal/remote_verifier.py:439-442 | the stretch after the fetch: the latch observed, only a null remembered, and the outcome |
| RemoteRuns.RunKeeps | src/fastapi_better_auth/_internal/remote_verifier.py:474-523 | the invariant of the probe gate: one probe at a time, by the lock's holder, only while nothing is decided; the stamp is the last probe that counts |
| RemoteRuns.NothingSentBeforePass | src/fastapi_better_auth/_internal/remote_verifier.py:437-439 | in every interleaving with cancellations no cookie is sent before a probe has passed |
| RemoteRuns.VerdictsArePermanent | src/fastapi_better_auth/_internal/remote_verifier.py:483-523 | "passed" and "contract failed" are each permanent and never both true |
| RemoteRuns.ProbesAreSpaced | src/fastapi_better_auth/_internal/remote_verifier.py:498-522 | probes that were not cancelled start at least the retry interval apart despite the rollback, so their number in any span is bounded |
| RemoteCalls.ReadyWasProven | src/fastapi_better_auth/_internal/remote_probe.py:74-157 | the verifier is ready only after the bare probe was answered 200 with null and then the bearer rung passed, in one task |
| RemoteReadiness.ReadinessExactly | src/fastapi_better_auth/_internal/remote_verifier.py:510-523 | in every interleaving the verifier is ready exactly when some probe passed, and refused for good exactly when some probe was answered against the contract or met the library's own configuration error; a timeout, a refused connection or a cancellation is neither |
| RemoteReadiness.LockLeadsExactly | src/fastapi_better_auth/_internal/remote_verifier.py:487-508 | under the probe lock a task goes on after a pass, stops after a broken contract, is turned away within ten seconds of the last start that counts, and otherwise probes, however many went unreached |
| RemoteReadiness.ProbeLeadsExactly | src/fastapi_better_auth/_internal/remote_probe.py:74-201 | where a probe's task goes on each answer to each of its two requests |
| RemoteReadiness.PrepareLeadsExactly | src/fastapi_better_auth/_internal/remote_verifier.py:320-350 | what `prepare` is told before it waits for the lock |
| RemoteCalls.SlotsAreConserved | src/fastapi_better_auth/_internal/remote_verifier.py:533-560 | in every interleaving the calls in flight are exactly the slots out, never more than the limit, and every slot taken is given back exactly once |
| RemoteCalls.EverySentCookieWasGated | src/fastapi_better_auth/_internal/remote_verifier.py:425-450 | each call forwards a cookie its own request brought through the structural check, CSRF, the keyring, a cache miss and an open latch |
| RemoteCalls.EverySessionIsProven | src/fastapi_better_auth/_internal/remote_verifier.py:608-625 | a session is returned only for a live upstream document naming the token of the caller's own gated cookie |
| RemoteOutcomes.AnswerIsReadExactly | src/fastapi_better_auth/_internal/remote_verifier.py:608-684 | a session exactly for a live record of the forwarded token, and each refusal exactly for its causes: expiry, a standing ban, another token, `null`, or nothing readable |
| RemoteOutcomes.LiveDocumentIsASession | src/fastapi_better_auth/_internal/remote_verifier.py:608-625 | so a live document is always a session, a user explicitly not banned included |
| RemoteOutcomes.FetchEndsExactly | src/fastapi_better_auth/_internal/remote_verifier.py:562-587 | a fetch with no answer is an unavailable service, or the library's own error as it is |
| RemoteOutcomes.AdmittedCallExactly | src/fastapi_better_auth/_internal/remote_verifier.py:425-437 | a request with no local fault is refused for a cookie known to be gone, then for a 429 window, then, with no pass, for a broken contract, each with its class; otherwise it goes on |
| RemoteOutcomes.FaultyCallExactly | src/fastapi_better_auth/_internal/remote_verifier.py:425-430 | a request with one is refused for it: cross-site before the keyring, and malformed or forged as an invalid credential |
| RemoteOutcomes.EveryRefusalIsJustified | src/fastapi_better_auth/_internal/remote_verifier.py:402-450 | in every interleaving every refusal, of `verify` or `prepare`, has its cause at the step that gives it |
| RemoteCalls.CachedWasAnswered | src/fastapi_better_auth/_internal/remote_verifier.py:589-606 | whatever the cache holds was answered 200 with null, at the time it is stamped with |
| RemoteCalls.CacheHitRepeatsAnAnswer | src/fastapi_better_auth/_internal/remote_verifier.py:431-432 | a refusal from the cache repeats, within the TTL, an answer to the same digest: the refusal that answer gives this request |
| LatchedSends.LatchIsWindows | src/fastapi_better_auth/_internal/remote_verifier.py:433-442 | in every interleaving the verifier is latched exactly inside the windows opened by its responses, read off their times and backoffs alone |
| LatchedSends.LatchedSendExactly | src/fastapi_better_auth/_internal/remote_verifier.py:433-450 | in every interleaving a request sends while latched exactly when a 429 inside no window arrived after its look at the latch and before its slot, and the backoff that 429 asked for is not over |
| LatchedSends.LatchedSendHappens | src/fastapi_better_auth/_internal/remote_verifier.py:433-439 | a run that sends a cookie inside a 429 window, for every configuration some request passes |
| RemoteErasure.ErasingHitsLeavesARun | src/fastapi_better_auth/_internal/remote_verifier.py:425-450 | in every interleaving with failures and cancellations, and whatever upstream answers, erasing the calls the cache answered leaves a run of the uncached verifier: same tasks, lock, slots, probes and cookies sent, and every field but the cache |
| RemoteErasure.HitSaysWhatUpstreamSaid | src/fastapi_better_auth/_internal/remote_verifier.py:431-432 | each erased call was told what upstream had answered about its digest less than the TTL before, in the refusal any later null would have given it |
| RemoteReplay.AskingInsteadIsARun | src/fastapi_better_auth/_internal/remote_verifier.py:425-450 | in every interleaving against an upstream that never answers 429, with a slot free at each hit: making each call the cache answered in full, told null again, gives a run of the uncached verifier in which every task, hits included, has the same outcome |
| RemoteTransparency.CacheIsTransparent | src/fastapi_better_auth/_internal/remote_verifier.py:425-442 | for calls made one after another against an upstream that answers 200 and never revives a cookie, at any clock readings, each comes out as it would with the cache disabled |
| RemoteTransparency.RevivalIsHiddenExactly | src/fastapi_better_auth/_internal/negative_cache.py:21-23 | the condition is needed: from a new verifier, a cookie answered null and then revived is refused by the cache, where the uncached verifier returns its session, for as long as the TTL and no longer |
| RemoteTransparency.VisitIsARun | src/fastapi_better_auth/_internal/remote_verifier.py:402-450 | the call transparency speaks of is what a lone task does in the interleaved system |
| KeySet.CollectAll | src/fastapi_better_auth/_internal/jwks.py:256-259 | the loop over the entries, stopping at the first that refuses the document |
| KeySet.PublishesExactly | src/fastapi_better_auth/_internal/jwks.py:287-310 | a document is read exactly when every entry is well formed and every entry the loader is run on loads; it then publishes under each `kid` the first usable entry and nothing else |
| KeySet.PublishedAreTrusted | src/fastapi_better_auth/_internal/jwks.py:297-310 | every published key is filed under its own `kid` with an allowlisted asymmetric algorithm |
| KeyRules.PublishedSignsExactly | src/fastapi_better_auth/_internal/jwks.py:287-360 | under each `kid` a document publishes its first entry that can sign: an allowlisted asymmetric algorithm, no `use` but `sig`, no `key_ops` without `verify`, loadable, 2048 bits at least if RSA; and nothing if none can |
| KeyRules.RefusedExactly | src/fastapi_better_auth/_internal/jwks.py:287-326 | a list of keys is refused exactly when some entry is no object, has no `kid` or no `alg`, or is a wanted key that does not load |
| KeyRules.ParsedExactly | src/fastapi_better_auth/_internal/jwks.py:247-285 | an answer yields keys exactly when it is a 200 in one of the two media types with a list within the cap that nothing spoils |
| Jwks.AbsentExactly | src/fastapi_better_auth/_internal/jwks.py:150-162 | an absence is answered under the lock exactly from a live remembered miss inside the window or from a fresh set |
| Jwks.JwksClient.EnterLock | src/fastapi_better_auth/_internal/jwks.py:150-185 | from the lock to an answer or the await of a fetch, with the whole new state |
| Jwks.JwksClient.FetchReturned | src/fastapi_better_auth/_internal/jwks.py:187-211 | from the fetch to the answer, failures and library errors included |
| Jwks.JwksClient.FetchCancelled | src/fastapi_better_auth/_internal/jwks.py:194-196 | a cancelled fetch restores the stamp and nothing else |
| Jwks.JwksClient.Look | src/fastapi_better_auth/_internal/jwks.py:164-171 | the unlocked look answers a published key of a fresh set and changes nothing |
| Jwks.JwksClient.AnswerFor | src/fastapi_better_auth/_internal/jwks.py:201-211 | the reply from the set on hand, and the one miss it may remember |
| Jwks.JwksClient.RememberMiss | src/fastapi_better_auth/_internal/jwks.py:222-230 | the evicting loop's whole new state |
| JwksRuns.RunKeeps | src/fastapi_better_auth/_internal/jwks.py:140-230 | the invariant of every interleaving: one fetch at a time; the set on hand is the newest parsed; misses are bounded and lacking from it; the stamp is the last fetch that counts |
| JwksRuns.EveryReplyIsJustified | src/fastapi_better_auth/_internal/jwks.py:140-211 | in every interleaving a key is answered only if the newest set publishes it with an allowlisted algorithm, an absence only for a `kid` that set lacks and less than cache_ttl + negative_ttl after it was fetched, unavailability only with no set or a stale one |
| JwksReplies.CallAnswersExactly | src/fastapi_better_auth/_internal/jwks.py:148-168 | at the call a published key is answered at once while the set is fresh, and every other caller waits |
| JwksReplies.LockAnswersExactly | src/fastapi_better_auth/_internal/jwks.py:150-211 | under the lock: such a key; failing that a fetch, unless one started within the window; and while held back, a live miss, a stale key, an absence from a fresh set, or no answer, in that order |
| JwksReplies.FetchAnswersExactly | src/fastapi_better_auth/_internal/jwks.py:187-211 | from the set the fetch brought, the library's error as it is, or the newest set of before |
| JwksReplies.StaleKeyIsHeldBack | src/fastapi_better_auth/_internal/jwks.py:150-177 | in every interleaving a key is told from a stale set only while a refetch is held back or when the one just made failed |
| JwksRuns.MissesAreBoundedAndHonest | src/fastapi_better_auth/_internal/jwks.py:213-230 | the remembered misses never exceed 256 and never hide a published key |
| JwksRuns.FetchesAreSpaced | src/fastapi_better_auth/_internal/jwks.py:173-196 | whatever `kid`s arrive, fetches that were not cancelled start a window apart, and any span of T seconds holds at most floor(T / refetch_interval) + 1 |
| JwksRuns.CancelledFetchRestoresWindow | src/fastapi_better_auth/_internal/jwks.py:184-196 | a cancelled fetch leaves the window exactly as if it had never started, whatever ran meanwhile |
| MissOrder.RememberKeepsOrderExactly | src/fastapi_better_auth/_internal/jwks.py:222-230 | remembering a miss keeps the misses oldest first exactly when no older one, left by the eviction, stands behind it |
| MissOrder.MissesStayOrderedExactly | src/fastapi_better_auth/_internal/jwks.py:187-230 | in every interleaving the misses are oldest first throughout exactly when no fetch for a held miss ever fails with an older one behind it |
| MissOrder.MissesFallOutOfOrder | src/fastapi_better_auth/_internal/jwks.py:187-230 | for every configuration and any two `kid`s a key set lacks, a run whose remembered misses fall out of order |
| MissOrder.EvictsClosestToExpiring | src/fastapi_better_auth/_internal/jwks.py:222-230 | from a full map in order the one miss evicted is the closest to expiring, the `kid` remembered alone coming back if it was that one |
| MissOrder.KeepsAllBelowBound | src/fastapi_better_auth/_internal/jwks.py:222-230 | below 256 misses none is evicted |
| StaleAbsences.AbsenceIsFreshExactly | src/fastapi_better_auth/_internal/jwks.py:150-162 | no run tells an absence from a set past its freshness if and only if refetch_interval or negative_ttl is not positive |
| StaleAbsences.StaleAbsenceHappens | src/fastapi_better_auth/_internal/jwks.py:158-161 | for every other configuration, a run that does |
| OutageLatch.OutageLatch.AdmitKind | src/fastapi_better_auth/_internal/stores/outage.py:126-135 | the admission and the whole new state |
| OutageLatch.OutageLatch.Rearm | src/fastapi_better_auth/_internal/stores/outage.py:137-143 | a re-arm always leaves the latch as new, early return included |
| OutageLatch.OverflowMeansFull | src/fastapi_better_auth/_internal/stores/outage.py:129-134 | overflow implies the reported set is full |
| OutageLatch.ReportsAreBounded | src/fastapi_better_auth/_internal/stores/outage.py:126-143 | between two re-arms at most eight reports, all of distinct kinds, and one notice exactly when the latch overflowed |
| OutageLatch.AnswersAreDue | src/fastapi_better_auth/_internal/stores/outage.py:126-135 | by the calls alone: the first eight kinds since a re-arm are reported, the ninth is the overflow notice, and everything else is silent |
| OutageLatch.EveryAnswerIsDue | src/fastapi_better_auth/_internal/stores/outage.py:126-143 | so answers every admission in every interleaving, after the calls before it in the order |
| OutageLatch.EarlyReturnIsRearm | src/fastapi_better_auth/_internal/stores/outage.py:139-140 | an unlocked look that finds nothing reported is a complete re-arm, even halfway through another thread's |
| OutageLatch.Linearizable | src/fastapi_better_auth/_internal/stores/outage.py:126-143 | every interleaving of `admit` and `rearm` threads takes effect in one order, each call once between its call and return, with the sequential latch's answers |
| OutageLatch.OrderOnlyGrows | src/fastapi_better_auth/_internal/stores/outage.py:126-143 | the order only grows |
| OutageLatch.OrderRespectsTime | src/fastapi_better_auth/_internal/stores/outage.py:126-143 | a call that had returned by some step stands in the order before every call made after that step |
| OutageLatch.InterleavedBounds | src/fastapi_better_auth/_internal/stores/outage.py:30-31 | so the sequential bounds hold in every interleaving |
| Capped.Read | src/fastapi_better_auth/_internal/httpx_transports.py:189-213 | the exact concatenation within the cap and a refusal past it; the buffer never exceeds cap + 1 bytes for any chunk sizes and any lag of the cancellation |
| Capped.CappedAppend | src/fastapi_better_auth/_internal/httpx_transports.py:208 | slicing each chunk to what is left keeps the capped prefix of everything read |
| Urls.NormalizeIsIdempotent | src/fastapi_better_auth/_internal/urls.py:73-87 | normalizing a normalized origin returns it unchanged |
| Urls.NormalizeIsCanonical | src/fastapi_better_auth/_internal/urls.py:73-87 | two accepted inputs normalize to one string exactly when scheme, canonical host and effective port agree |
| UrlAccepts.AcceptedAsExactly | src/fastapi_better_auth/_internal/urls.py:73-87 | a value is accepted as an origin exactly when, space around it aside, its text is that scheme in any case, `://`, an authority with no credentials that shows the host and port, and nothing after it but perhaps a slash, and no character of it is a space or a control character; no port is 443 or 80 |
| UrlAccepts.HostExactly | src/fastapi_better_auth/_internal/urls.py:136-161 | a host is accepted exactly as an unmapped IPv6 literal without a zone, an IPv4 literal, or a hostname less one final dot |
| UrlAccepts.HostnameExactly | src/fastapi_better_auth/_internal/urls.py:16-17 | a hostname character by character: no dot or hyphen at an end or next to a dot, and a dot in every 64 characters |
| UrlAccepts.AuthorityShows | src/fastapi_better_auth/_internal/urls.py:110-115 | the host and port text an authority shows, brackets included |
| UrlAccepts.PortReadsExactly | src/fastapi_better_auth/_internal/urls.py:193-201 | no port text is no port, digits up to 65535 are theirs, anything else is refused |
| Urls.PrintedReadsBack | src/fastapi_better_auth/_internal/urls.py:85-87 | a printed origin is split and checked back to the origin it is, brackets and default ports included |
| Urls.HostIsCanonical | src/fastapi_better_auth/_internal/urls.py:136-161 | an accepted host is a bracketed unmapped IPv6 literal, an IPv4 literal or a hostname, in its compressed spelling |
| NonAsciiHosts.KelvinIsAccepted | src/fastapi_better_auth/_internal/urls.py:136-161 | the input that shows a non-ASCII host accepted: U+212A becomes the host `k` |
| NonAsciiHosts.RefusedAsNonAsciiExactly | src/fastapi_better_auth/_internal/urls.py:147-152 | a value that reaches the host check is refused as non-ASCII exactly when its host is still non-ASCII once lowercased |
| NonAsciiHosts.AcceptsOnlyAsciiExactly | src/fastapi_better_auth/_internal/urls.py:136-161 | every accepted value has an ASCII host if and only if lowercasing turns no non-ASCII host that can stand in an authority into an acceptable one |
| Throttle.AtMostPerSpan | src/fastapi_better_auth/_internal/jwks.py:173-177 | stamps an interval apart number at most floor(span / interval) + 1 in any span |
| Throttle.CancelRestores | src/fastapi_better_auth/_internal/jwks.py:181-196 | cancelling the attempt in flight leaves exactly the attempts that counted before it |

## Left out

- FastAPI wiring, dispatch among verifiers, OpenAPI schemes, labels and the bare-factory guard: framework behaviour or one-branch checks.
- Configuration validators: range checks; their bounds appear as preconditions only where a loop or a division needs them.
- HMAC, SHA-256, signature algorithms and key loading: library functions, modelled as parameters or as what they report.
- JSON parsing, pydantic models and `parse_user`: a response body is null, unparseable, not an object, unreadable, or a record.
- The `session_data` warning, the mode A store lookups and the database and Redis stores: once-only logging and driver behaviour.
- `report_once` and how a driver error becomes a kind: guarded attribute reads of third-party objects.
- Frame scrubbing, exception chaining, reprs, reason texts and constant-time comparison: no counterpart in a logical model; refusals are told apart by class, or by flaw where the codec has several.
- `BetterAuth.lifespan` and the raw `probe()`: `prepare` is modelled as a task of the runs, `probe` shares nothing with them.
- Python's limit on the digits `int()` reads: a chunk suffix or port of thousands of digits raises there and is read here.
- Unicode lowercasing of a media type: only ASCII letters are lowercased, so a non-ASCII letter whose lowercase is ASCII is not read as it.
- Lone surrogates in cookie text: a Cookie header is decoded from latin-1 and cannot hold one; in `SharedSecret.dfy` they are modelled.
- RemoteCalls.SlotsAreConserved: the limiter's queue order is not modelled; any waiting task may be granted a free slot, so fairness is not stated.
- SignedCookie.VerifySignature: states the verdict, not that the time taken is independent of the matching key.
