# Verified model of kube-oidc-proxy

A Dafny model of the decisions the proxy makes for a request on its way from the listener to the API server,
with proofs of what those decisions promise. `dafny verify dfyconfig.toml` checks all of it.

## What is modelled

**The impersonation authorizer.** `Authorizer` is the walk over the impersonation headers: the count, the loop
over keys and values with its early exits, and the rebuilt header map, as loops proved against a specification
that takes the iteration order and the answers as parameters. `WalkOutcomes` says which outcome it gives and why, in
terms of headers and answers alone, `AuthorizerLaws` what follows for targets and orders, `TargetOrder` when the
target depends on map order.
`ReviewMachine` is the machinery that answers one question: callers look up the cache, miss or bypass it, start
or join a flight, retry, give up; flights are answered, fill the cache and are delivered; entries are evicted,
the clock is set to anything, contexts end, and the API server may reply anything at all. `ReviewSafety` is its
invariant, `ReviewTheorems` what every run satisfies, `DecisionCache` and `ExpiringCache` the cache as objects,
`CachedAuthorizer` puts the walk on top of the machine, and `AnsweringRuns` shows that some run
answers whatever is asked.

**The request pipeline.** `Pipeline` is the handler chain as methods on a `Proxy` object with an event log.
Every filter hands on a derived request value; the decision and termination holders are heap objects shared by
all of them. Each method is proved against a function from the state before to the state after. `ErrorHandler`
is the classification of failures, `PipelineTheorems` and `PipelineResults` the properties of whole requests,
`Admissions` which requests are admitted and what the others leave behind; `OutboundExtras` follows the extras to the
API server, and `EndToEnd` joins the chain to the review machine and to the terminal record. The authenticator, the
token reviewer, the answers to questions, the JSON encoder, the audit filter and the reverse proxy are parameters that
may do anything.

**Readiness.** `Readiness` is the health check with its two critical sections, `ReadinessRuns` any number of
checks interleaved between them, `ReadinessTheorems` what every interleaving satisfies. `PendingKeys` shows
that the key of a pending list tells consecutive rounds apart.

**Responses and gauges.** `Lifecycle` is the response recorder and the lifecycle filter, `OnTheWire` what
the server underneath makes of it, `Metrics` the collectors, `Gauges` any number of overlapping requests sharing them.

**Smaller cores.** `ClientIP` (resolution, sanitising, the reverse proxy's edits, the second resolver), `TokenCache`
(the length-prefixed key and the caching authenticator), `WarningLimiter`, `Hooks`, `DocSection` (the generated section
of a document), with `Headers`, `Strings`, `ReviewSpec` and `Errors` underneath.

## Assumptions

- JSON distinguishes review specs, and the keyed hash of RFC 2104 distinguishes byte streams.
- The LRU cache returns an entry for its exact key up to its expiry, unless it has dropped it, which it may do to any
  entry at any time.
- The flight group runs one function per key at a time and reports a result as shared once anybody joined.
- The rate limiter is a real-valued token bucket; what is said of its admissions assumes a clock that does not run
  backwards.
- An address that parses is written in visible ASCII without a comma, and only addresses lie in a network.
- net/http hands over canonical header names with non-empty lists. It is stated where it is needed; what happens
  without it is proved too. Header names are ASCII, so lower-casing is the ASCII one.
- httputil.ReverseProxy removes the headers a request lists in Connection, as section 7.6.1 of RFC 9110 asks, then
  appends the peer to X-Forwarded-For. Only the statements about that chain rest on it.
- Every error of a review carries the sentinel that `liveCheck` wraps it in. The pipeline asks it of the questions a
  request put, and `EndToEnd.DecidedOnceOverTheMachine` takes it from the review machine. `Admissions` also asks that
  such an error carries no other sentinel of the proxy's own but a cancellation.
- client-go sends each extra under a header named after its key, net/http sends header names that differ only in case
  as one, and the API server reads the key in lower case. Only the statements of `OutboundExtras` and those of
  `EndToEnd` that use them rest on it; elsewhere extras are those of the config before they become headers.
- net/http takes the first final status, refuses codes outside 100 to 999 with a panic, and drops what is written
  after a takeover. Only `OnTheWire` rests on it.

## Where the code does less than it says

Each of these is proved as an if-and-only-if: when the promise holds, and so when it does not.

1. `docs/operations.md:140-142` promises exactly one decision per request on every path. A request the filters
   admit and the audit filter answers itself leaves none (`PipelineResults.DecidedOnceExactlyWhen`).
2. `docs/operations.md:223` describes `inbound_user` as the identity the token authenticated as. Once an
   impersonation target is in place, a refusal that comes from the reverse proxy before it called the transport is
   recorded under the target (`PipelineResults.InboundIsRequesterExactlyWhen`).
3. `docs/configuration.md:126-129` promises one client address for the access record and the header sent upstream.
   The header carries that address and no other unless the identity or the operator supplies values under some
   spelling of its key, or the request belongs to one of two families from a trusted peer: the Connection header lists
   X-Forwarded-For and the client is not the peer, so the reverse proxy removes the chain before the record is
   written; or the first X-Forwarded-For line is empty and a later line holds an untrusted address, which joining the
   lines brings back (`EndToEnd.RecordAndExtraAgreeExactlyWhen`, `ClientIP.OutgoingClientAgrees`).
4. `docs/logging.md:212` promises the HTTP status written to the client, zero only when no response went out. The
   recorder latches a status before the server has taken it. A status the server refuses with a panic, such as 42,
   and a status written after the connection was taken over reach nobody and are reported all the same
   (`OnTheWire.StatusIsOnTheWireExactlyWhen`, `OnTheWire.ZeroMeansNothingWentOutExactlyWhen`).
5. The live reviews stay within misses plus bypasses in every run unless the API server may report a context error
   for a context that is not done and some spec can be cached (`ReviewTheorems.ReviewsBoundedExactly`).
6. `docs/authentication.md:282-294` says of each `originaluser.jetstack.io-*` key what of the original user it
   holds and when it is sent. The API server receives other values under a key as well when the operator supplies
   another spelling of it, and only the target's or the operator's when the original user has nothing to put there
   and they supply the key (`OutboundExtras.ReservedHeadersHoldTheRequesterExactlyWhen`).
7. A refused user, group or uid whose name begins or ends with a quote is recorded without it
   (`ErrorHandler.TrimUndoesQuote`). A refused extra is recorded as `name'='value`, and loses more when its name
   begins or its value ends with a quote or either is empty (`ErrorHandler.TrimKeepsExtraForm`).
8. Regenerating a document is idempotent exactly for tables that do not hold the end marker
   (`DocSection.SecondRunChangesNothing`).

Three more conditions are always met by what net/http hands over (`TargetOrder.ServerHeadersCommute`,
`TargetOrder.ServerReviewsAreQuestions`) and matter to no other caller of the code: headers are kept if and only if
their names are canonical and their lists non-empty (`AuthorizerLaws.KeepsOtherHeaders`), the target is free of map
order if and only if names that differ only in case contribute values that commute
(`TargetOrder.TargetIsOrderFreeExactlyWhen`), and two extra names put different questions unless they agree up to
their first slash (`ReviewSpec.SpecsAgreeExactlyWhen`).

## Model

| member | source | states |
|---|---|---|
| ReviewTheorems.DecisionsAreAccountedFor | pkg/proxy/subjectaccessreview/subjectaccessreview.go:353-535 | In every interleaving, a decision a caller gets was given by a live review of its exact spec: from an entry no older than its class's TTL, from a flight still registered when joined, or from its own review |
| ReviewTheorems.OnlyFlightDecisionsAreStored | pkg/proxy/subjectaccessreview/subjectaccessreview.go:485-518 | Only decisions of flights are stored, under the key of their spec and for their class's TTL; no error and no bypassed or retried result is |
| ReviewTheorems.NoForeignCancellation | pkg/proxy/subjectaccessreview/subjectaccessreview.go:480-518 | A context error from another caller's flight reaches a caller only when its own request is finished |
| ReviewTheorems.OneTerminalRecord | pkg/proxy/subjectaccessreview/subjectaccessreview.go:416-425 | A question that was not a hit has exactly one terminal record once answered, whichever branch answered it, and none before |
| ReviewTheorems.OneFlightPerKey | pkg/proxy/subjectaccessreview/subjectaccessreview.go:485-494 | At most one flight per key is in progress |
| ReviewTheorems.ReviewsAccount | pkg/proxy/subjectaccessreview/subjectaccessreview.go:353-375 | Whatever the server does, live reviews plus idle misses equal misses plus bypasses plus winners that retried, and every question looked up is a hit, a miss or a bypass |
| ReviewTheorems.ReviewsBoundedExactly | pkg/proxy/subjectaccessreview/subjectaccessreview.go:485-535 | Live reviews stay within misses plus bypasses in every run if and only if the server reports context errors only for finished contexts, or answers without error, or no spec can be cached |
| ReviewTheorems.ReviewsAreBounded | pkg/proxy/subjectaccessreview/subjectaccessreview.go:485-535 | With a server that reports context errors only for finished contexts, live reviews never exceed misses plus bypasses |
| ReviewTheorems.DishonestTimeoutsCostAReview | pkg/proxy/subjectaccessreview/subjectaccessreview.go:500-512 | Without that, a run exists with three live reviews for two misses |
| ReviewTheorems.SettledAnswersAreTheVerdict | pkg/proxy/subjectaccessreview/subjectaccessreview.go:353-375 | With a fixed error-free verdict every answer, from any source, is the verdict on the caller's own question |
| ReviewTheorems.StoredDecisionIsServed | pkg/proxy/subjectaccessreview/cache.go:92-118 | In every run a decision a flight stored, not since evicted or replaced, answers the next lookup of its key for exactly its own class's TTL: a hit with that decision and no live review, and a miss afterwards |
| ReviewTheorems.LookUpServes | pkg/proxy/subjectaccessreview/subjectaccessreview.go:353-375 | A lookup hits exactly when the key's entry has not expired, and answers with its decision; otherwise it is a miss, or a bypass with one review when there is no key |
| ReviewTheorems.AnswersAreTheirSources | pkg/proxy/subjectaccessreview/subjectaccessreview.go:480-535 | Every answer, errors included, is the reply of its flight's or its own review, or the error the caller's own context ended with |
| CachedAuthorizer.CachingIsInvisible | pkg/proxy/subjectaccessreview/subjectaccessreview.go:189-375 | With a fixed verdict a request is decided exactly as without cache and flights: outcome, target, forwarded headers and questions |
| CachedAuthorizer.TTLsDoNotMatter | pkg/proxy/subjectaccessreview/cache.go:60-118 | Two proxies with different TTLs, evictions, clocks and map orders grant the same requests to the same targets |
| CachedAuthorizer.GrantsRestOnLiveReviews | pkg/proxy/subjectaccessreview/subjectaccessreview.go:223-304 | Under any verdicts, every part of a granted target has a question that asks whether this requester, with its own uid, groups and extra, may impersonate it, answered allow and accounted for |
| CachedAuthorizer.FailedQuestionsAreMarked | pkg/proxy/subjectaccessreview/subjectaccessreview.go:496-535 | Every failed question carries the review sentinel, whichever path it failed on |
| AnsweringRuns.SomeRunAnswers | pkg/proxy/subjectaccessreview/subjectaccessreview.go:353-535 | Whatever a request asks and however the server may answer, some run answers it so: the statements about requests answered by a run are never vacuous |
| Authorizer.CheckAuthorizedForImpersonation | pkg/proxy/subjectaccessreview/subjectaccessreview.go:189-328 | The loops compute the outcome and the list of questions asked that the specification gives for this order and these answers |
| Authorizer.Walk | pkg/proxy/subjectaccessreview/subjectaccessreview.go:223-304 | The outer loop stops at the first refusal, having asked exactly the questions up to it, and otherwise has the whole target |
| Authorizer.Visit | pkg/proxy/subjectaccessreview/subjectaccessreview.go:224-303 | One turn of the loop: every branch on the kind of header, with its early exits |
| WalkOutcomes.OutcomeExplained | pkg/proxy/subjectaccessreview/subjectaccessreview.go:189-328 | Every outcome and every question asked, by cases on the headers, their order and the answers: over the cap, no impersonation, no user named, or the questions in header order up to the first not allowed |
| WalkOutcomes.RefusedExactlyWhen | pkg/proxy/subjectaccessreview/subjectaccessreview.go:223-304 | Each refusal is given if and only if it applies: denied with requester, kind and quoted value of a last question answered deny, failed with the error of the last question, no user named, or the first header of no known kind with all before it allowed |
| WalkOutcomes.GrantedExactlyWhen | pkg/proxy/subjectaccessreview/subjectaccessreview.go:189-328 | Under answers that may change from question to question, a target is granted if and only if the request is within the cap, names a user, has no header of unknown kind and every value is allowed; then exactly the questions of its values were asked, in order |
| WalkOutcomes.QuestionsByKind | pkg/proxy/subjectaccessreview/subjectaccessreview.go:233-297 | The questions a header puts are those about its values, by its kind |
| WalkOutcomes.CountIsTheNumberOfValues | pkg/proxy/subjectaccessreview/subjectaccessreview.go:335-343 | The count is the number of values in impersonation headers |
| Authorizer.CountImpersonationHeaderValues | pkg/proxy/subjectaccessreview/subjectaccessreview.go:335-343 | The count of values the cap is compared with |
| Authorizer.ForwardHeaders | pkg/proxy/subjectaccessreview/subjectaccessreview.go:311-319 | The copy of every header that was not consumed |
| AuthorizerLaws.QuestionsAreCapped | pkg/proxy/subjectaccessreview/subjectaccessreview.go:196-199 | A request asks at most as many questions as the count, hence at most the limit, and one over the limit asks none and is refused for exactly that |
| AuthorizerLaws.CountIsOrderFree | pkg/proxy/subjectaccessreview/subjectaccessreview.go:335-343 | The count does not depend on map order |
| AuthorizerLaws.SucceedsExactlyWhenAllAllowed | pkg/proxy/subjectaccessreview/subjectaccessreview.go:223-304 | The walk succeeds if and only if every value of every impersonation header is allowed and nothing stops it, in any order |
| AuthorizerLaws.TargetIsNamed | pkg/proxy/subjectaccessreview/subjectaccessreview.go:213-300 | The target is exactly what the headers name: user, groups in order, uid, extras |
| AuthorizerLaws.KeepsOtherHeaders | pkg/proxy/subjectaccessreview/subjectaccessreview.go:311-322 | No impersonation header is left and every other header is kept unchanged, if and only if those have canonical names and values |
| AuthorizerLaws.GrantedMeans | pkg/proxy/subjectaccessreview/subjectaccessreview.go:189-328 | A grant, under any answers: the target is named by the headers, exactly the questions about its parts were asked, and each was answered allow |
| AuthorizerLaws.OrderDoesNotMatter | pkg/proxy/subjectaccessreview/subjectaccessreview.go:208-328 | With fixed verdicts, success, target and forwarded headers are the same for every map order |
| TargetOrder.TargetIsOrderFreeExactlyWhen | pkg/proxy/subjectaccessreview/subjectaccessreview.go:223-300 | For any header map, every order gives one target if and only if any two names equal after lower-casing contribute values whose order does not matter |
| TargetOrder.ServerHeadersCommute | pkg/proxy/subjectaccessreview/subjectaccessreview.go:223-226 | The headers net/http hands over meet that condition |
| ReviewSpec.SpecsAgreeExactlyWhen | pkg/proxy/subjectaccessreview/subjectaccessreview.go:542-581 | Two questions are the same review if and only if requester and value agree and the resources are equal, or are extra names that agree up to their first slash |
| ReviewSpec.ReviewAsksToImpersonate | pkg/proxy/subjectaccessreview/subjectaccessreview.go:542-581 | Field by field: the requester's name, uid, groups and extra, the verb impersonate, the value as name, and the API group, resource and subresource of each kind; no other review has these |
| TargetOrder.ServerReviewsAreQuestions | pkg/proxy/subjectaccessreview/subjectaccessreview.go:542-581 | For two headers net/http hands over, equal reviews are equal questions: same requester, resource and value |
| DecisionCache.New | pkg/proxy/subjectaccessreview/cache.go:60-69 | The cache is off exactly when neither TTL is positive |
| DecisionCache.Key | pkg/proxy/subjectaccessreview/cache.go:79-88 | The key is the serialised spec, and is there exactly with a cache, for a spec that serialises to at most 10000 bytes |
| DecisionCache.Get | pkg/proxy/subjectaccessreview/cache.go:92-101 | A hit, with the stored decision, if and only if one is stored under the key no longer ago than its class's TTL |
| DecisionCache.Put | pkg/proxy/subjectaccessreview/cache.go:106-118 | A decision is stored for its own class's TTL, and not at all when that class is not cached |
| DecisionCache.PutThenGet | pkg/proxy/subjectaccessreview/cache.go:92-118 | A stored decision is what a later Get answers, up to the end of its class's TTL, unless it was evicted to make room |
| DecisionCache.MachineUsesTheCache | pkg/proxy/subjectaccessreview/cache.go:79-118 | The review machine hits exactly when such a cache would serve, with what it would serve, and fills it as Put does |
| ExpiringCache.LruExpire.Get | pkg/proxy/subjectaccessreview/cache.go:92-101 | An entry is served for its exact key if and only if its expiry has not passed |
| ExpiringCache.LruExpire.Add | pkg/proxy/subjectaccessreview/cache.go:106-118 | An entry is stored with its expiry; every other entry that remains is unchanged |
| Headers.CanonicalKeysStayDistinct | pkg/proxy/subjectaccessreview/subjectaccessreview.go:223-226 | Canonical header names stay distinct after lower-casing |
| PipelineResults.DecidedOnceExactlyWhen | pkg/proxy/handlers.go:123-139 | Across the chain, for every behaviour of its surroundings, a request is decided exactly once if and only if the filters refuse it, or admit it to a reverse proxy that makes no transport call after its first decisive step |
| PipelineResults.ReverseProxySettlesOnce | pkg/proxy/handlers.go:487-614 | A proxy that calls the transport at most once, first, and reports a refusal if it does not, is such a proxy: late cancellations and upstream failures add no decision |
| PipelineResults.RecordAndCounterAgree | pkg/proxy/proxy.go:505-508 | Access records and the decision counter say the same, in the same order |
| PipelineResults.UpstreamFollowsAllow | pkg/proxy/proxy.go:431-468 | A request reaches the API server only right behind its allow record and count, on the transport its admission chose |
| PipelineResults.AllowNamesTheIdentities | pkg/proxy/proxy.go:431-468 | The record right before an upstream call names the token's identity as inbound, if it has one, and the impersonated target as outbound |
| PipelineResults.UpstreamSends | pkg/proxy/proxy.go:431-468 | What goes upstream is what the reverse proxy gave the transport, with the bearer token added exactly without impersonation |
| PipelineResults.IdentityIsJustified | pkg/proxy/handlers.go:209-461 | An impersonating upstream call carries the guarded token's own identity, or a target whose every name, uid, group and extra value was asked and answered allow within the cap, with extras that are the identity's and the stated additions; no impersonation header is left and no other header is changed; its groups are the identity's own, in order, followed by system:authenticated exactly when they lack it |
| PipelineResults.NoAuthIsIntended | pkg/proxy/proxy.go:353-368 | The transport without proxy credentials is used only when Run built it, for a token a review accepted or with impersonation disabled |
| PipelineResults.ExtraValuesAreJustified | pkg/proxy/handlers.go:396-441 | Every extra value sent outside the reserved keys is the operator's, the resolved client address, the token's own, or a target value asked for under that very key and answered allow |
| OutboundExtras.ReservedHeadersHoldTheRequesterExactlyWhen | pkg/proxy/handlers.go:419-441 | Under each of the four reserved keys the API server receives the requester's values and no others if and only if no other spelling of the key has values from target or operator, and the requester has some or neither of them supplies the key |
| OutboundExtras.ClientIPReceived | pkg/proxy/handlers.go:405-417 | Under the client-address key the API server always receives the resolved address, and nothing else if and only if neither identity nor operator has values under any spelling |
| PipelineResults.GroupsKeyWithoutGroups | pkg/proxy/handlers.go:424-426 | For a requester without groups the groups key carries what an extra header of that name holds |
| PipelineResults.GroupsKeyWithoutGroupsArises | pkg/proxy/handlers.go:424-426 | Such a request is admitted and reaches the API server when everything is allowed |
| PipelineResults.ClassificationReachesTheTop | pkg/proxy/context/context.go:230-266 | The lifecycle filter reads the classification of the last upstream failure reported, and nothing for any other ending |
| PipelineResults.UpstreamFailureLeaves | pkg/proxy/handlers.go:590-604 | A transport error without a sentinel of the proxy's own decides nothing, is answered 502 and classified as timeout, reset or proxy error by what it is |
| PipelineResults.InboundIsRequesterExactlyWhen | pkg/proxy/handlers.go:678-702 | A record names the requester if and only if it is an allow or nobody else is impersonated |
| PipelineResults.EarlyProxyRefusalNamesTheTarget | pkg/proxy/context/context.go:269-275 | A refusal by the reverse proxy before any transport call is recorded under the target |
| Admissions.AdmittedExactlyWhen | pkg/proxy/handlers.go:209-461 | A request goes on if and only if its token was accepted and carries no reserved identity, and impersonation is off, or it has a name and no header impersonates, or every value is allowed and the original extra encodes; or its token was rejected and a review accepted it |
| Admissions.PlainRequestGoesAsItself | pkg/proxy/handlers.go:376-461 | An accepted token without impersonation headers goes upstream as its own user, headers untouched |
| Admissions.RefusedAs | pkg/proxy/handlers.go:209-441 | The reason, the answer and the recorded target of every refused request, by cases on the token, the headers and the last answer |
| Admissions.RefusalIsAnswered | pkg/proxy/handlers.go:487-702 | A refused request leaves one access record with the token's identity and method, the resolved address and those, the count of that decision and the answer, and nothing else |
| PipelineTheorems.AdmittedFacts | pkg/proxy/proxy.go:437-452 | An admitted request carries an impersonation config or the no-impersonation mark, never both and never neither, and why it was admitted |
| PipelineTheorems.RefusedIsRecorded | pkg/proxy/handlers.go:209-461 | Every refusal of a filter is one the error handler records |
| PipelineTheorems.HandledCounts | pkg/proxy/handlers.go:678-702 | The error handler decides at most once, never after a decision, and never for an upstream failure |
| PipelineTheorems.PlayedCounts | pkg/proxy/context/context.go:200-225 | The number of decisions any sequence of transport calls and reported errors makes |
| PipelineTheorems.ServingAppends | pkg/proxy/proxy.go:505-508 | What a request leaves behind does not depend on the log of others |
| Pipeline.Proxy.ServeHTTP | pkg/proxy/handlers.go:125-129 | From the lifecycle filter down the chain leaves what the specification gives for a request with new holders, and the lifecycle filter reads what was written into them |
| Pipeline.Proxy.WithAuthenticateRequest | pkg/proxy/handlers.go:209-274 | The routing of a rejected, an absent and an accepted token, and the reserved-identity guard |
| Pipeline.Proxy.WithTokenReview | pkg/proxy/handlers.go:319-340 | Passthrough only for a token a review accepted |
| Pipeline.Proxy.WithImpersonateRequest | pkg/proxy/handlers.go:343-392 | The branches on passthrough, disabled impersonation, missing name and impersonation headers |
| Pipeline.Proxy.Forwarding | pkg/proxy/handlers.go:394-461 | The enriched outbound identity and the request that carries it |
| Pipeline.Proxy.AddConfigured | pkg/proxy/handlers.go:412-417 | The operator's extras are appended, in whatever order their map is iterated |
| Pipeline.Proxy.AddOriginal | pkg/proxy/handlers.go:419-441 | The requester's own identity under the reserved keys |
| Pipeline.Proxy.HandleError | pkg/proxy/handlers.go:487-614 | The error handler's switch, with its records, answers and classification |
| Pipeline.Proxy.LogDenied | pkg/proxy/handlers.go:678-702 | A denial is recorded only when nothing was |
| Pipeline.Proxy.RecordDecision | pkg/proxy/proxy.go:505-508 | Record, mark and count of one decision |
| Pipeline.Proxy.RoundTrip | pkg/proxy/proxy.go:431-468 | Refuses a request with neither a config nor the mark; otherwise puts the bearer token back where there is no impersonation and records the allow before it calls the transport |
| Pipeline.Proxy.Serve | pkg/proxy/proxy.go:380-384 | A reverse proxy that calls the transport and the error handler of this proxy in any order, with any headers |
| Pipeline.CheckReservedIdentity | pkg/proxy/handlers.go:300-315 | Refused exactly for a reserved name or a reserved group that is neither the common one nor allowed |
| ErrorHandler.RefusalsAreClassified | pkg/proxy/handlers.go:546-588 | 431 exactly over the cap, 403 exactly for a denial, no answer exactly for a cancelled review |
| ErrorHandler.TrimUndoesQuote | pkg/proxy/handlers.go:695-699 | The recorded target of a refused user, group or uid is the name asked about, if and only if it does not begin or end with a quote |
| ErrorHandler.TrimKeepsExtraForm | pkg/proxy/handlers.go:695-699 | A refused extra is recorded as name and value between inner quotes, if and only if the name does not begin and the value does not end with a quote and neither is empty |
| EndToEnd.ImpersonationRestsOnReviews | pkg/proxy/handlers.go:376-392 | For each part of whoever an upstream call impersonates there is a question that asks whether exactly the guarded requester may impersonate it, answered allow by an accountable review |
| EndToEnd.ExtraIsTheArrivalsClient | pkg/proxy/handlers.go:408-410 | The API server receives the client resolved from the headers as they arrived, and no other address if and only if nobody else supplies a spelling of that key |
| EndToEnd.RecordAndExtraAgreeExactlyWhen | pkg/proxy/logging/accesslog.go:129-144 | Of whole requests: the address received is that of the record right before the call, and the only one, if and only if nobody else supplies a spelling of the key and the request is in neither family whose chain changes on the way |
| EndToEnd.DecidedOnceOverTheMachine | pkg/proxy/handlers.go:123-139 | A request whose questions a run of the review machine answered is decided once under the same condition |
| EndToEnd.TerminalRecordOfARequest | pkg/proxy/lifecycle.go:207-260 | The termination and reason of a whole request's terminal record: the last upstream failure reported, unless a fault, a takeover, a client gone or an aborted response comes first |
| ReadinessTheorems.StateOnlyGrows | pkg/probe/probe.go:380-446 | In every interleaving initialized issuers, readiness and the log only grow |
| ReadinessTheorems.ReadyIsEarned | pkg/probe/probe.go:425-446 | Ready means serving and every issuer initialized, or at least one outside require-all mode; with none only if none is configured |
| ReadinessTheorems.CompletingLatchesExactlyWhen | pkg/probe/probe.go:404-446 | Completing a check initializes exactly the issuers it found with their keys loaded, and latches readiness if and only if the mode's condition now holds |
| ReadinessTheorems.ReadyExactlyWhen | pkg/probe/probe.go:425-446 | In every interleaving the proxy is ready if and only if some issuer is initialized or, in require-all mode, a check has completed and every issuer is |
| ReadinessTheorems.CheckAnswersTheLatch | pkg/probe/probe.go:380-446 | A check returns nil if and only if readiness is latched as it returns |
| ReadinessTheorems.RecordsAreOrdered | pkg/probe/probe.go:456-493 | One initialized record per initialized issuer and no pending one after it, one ready record exactly when ready, ready counts that never fall or pass the total |
| ReadinessTheorems.PendingIsReportedOnKeyChange | pkg/probe/probe.go:478-493 | Whatever the URLs, pending records are written exactly when the key differs from the previously recorded round's, and are the round's list |
| ReadinessTheorems.PendingIsReportedOnChange | pkg/probe/probe.go:478-504 | In every run and for every configuration, pending records are written exactly when the pending list differs from the previously recorded round's, and are that list |
| PendingKeys.KeyTellsRoundsApart | pkg/probe/probe.go:498-504 | The keys of consecutive rounds are equal if and only if their pending lists are, whatever the URLs hold |
| ReadinessTheorems.FaithfulExactlyWithoutClash | pkg/probe/probe.go:204-211 | Each issuer's gauge is 1 exactly when it is initialized, in every run, if and only if no two URLs share a name |
| ReadinessTheorems.StartupCheckSeparatesNames | cmd/app/run.go:166-176 | The startup check passes if and only if that holds and no URL is configured twice |
| ReadinessRuns.StepKeeps | pkg/probe/probe.go:380-493 | Every step of every check keeps the invariant, stale results included |
| Readiness.KeyIsInjective | pkg/probe/probe.go:498-504 | Equal keys mean equal pending lists, reasons and order included, for URLs without commas |
| Readiness.DuplicateIssuerName | cmd/app/run.go:166-176 | No clash is reported exactly when all names are distinct, and a reported one is the first |
| Readiness.ProbeAll | pkg/probe/probe.go:404-420 | The lock-free probes split the snapshot into initialized and pending |
| Readiness.HealthCheck.Snapshot | pkg/probe/probe.go:395-402 | The first critical section lists exactly the issuers not yet initialized |
| Readiness.HealthCheck.Finish | pkg/probe/probe.go:423-446 | The second critical section: the whole new state and the answer |
| Readiness.HealthCheck.RecordProbeResults | pkg/probe/probe.go:456-493 | New issuers are marked, stale pending results dropped, a changed list reported |
| Readiness.HealthCheck.constructor | pkg/probe/probe.go:204-211 | One series per configured issuer at zero |
| Lifecycle.StatusIsFaithful | pkg/proxy/lifecycle.go:74-88 | At most one final status reaches the writer and it is the one recorded; interim ones pass in order and are never latched |
| Lifecycle.BytesAreFaithful | pkg/proxy/lifecycle.go:92-99 | The byte count is the sum of accepted writes; hijacked means a hijack went through |
| Lifecycle.StreamOpensOnce | pkg/proxy/lifecycle.go:176-201 | A stream opens at most once, exactly on a hijack or a first final status of 101 or 2xx, and only for a long-running request |
| OnTheWire.StatusIsOnTheWireExactlyWhen | pkg/proxy/lifecycle.go:231-240 | Over net/http the reported status is the one on the wire, zero for none, if and only if the first final status took effect, or there was none, or it was a zero with nothing on the wire instead |
| OnTheWire.ZeroMeansNothingWentOutExactlyWhen | pkg/proxy/lifecycle.go:231-240 | Zero stands for no response if and only if no first final status failed to take effect that is nonzero with nothing on the wire, or zero with a response there instead |
| OnTheWire.RefusedStatusIsReported | pkg/proxy/lifecycle.go:74-88 | A status the server refuses is reported although nothing went out |
| OnTheWire.StatusAfterTakeoverIsReported | pkg/proxy/lifecycle.go:124-137 | A status written after a takeover is reported although nothing went out |
| Lifecycle.ResponseRecorder.WriteHeader | pkg/proxy/lifecycle.go:74-88 | The first final status latches, a duplicate is ignored, an interim one passes, and the hook opens the stream |
| Lifecycle.ResponseRecorder.Write | pkg/proxy/lifecycle.go:92-99 | The implicit 200 and the byte count |
| Lifecycle.ResponseRecorder.Flush | pkg/proxy/lifecycle.go:110-119 | The implicit 200, and nothing when flushing is not supported |
| Lifecycle.ResponseRecorder.Hijack | pkg/proxy/lifecycle.go:124-137 | Only a hijack that went through marks the response and opens the stream |
| Lifecycle.ResponseRecorder.Establish | pkg/proxy/lifecycle.go:182-187 | The gauge is raised once |
| Lifecycle.RunHandler | pkg/proxy/lifecycle.go:279-280 | Any sequence of operations leaves the specified response and gauge |
| Lifecycle.Conclude | pkg/proxy/lifecycle.go:207-277 | The terminal record and the one observation, with the same status and termination |
| Lifecycle.WithRequestLifecycle | pkg/proxy/lifecycle.go:161-282 | A whole request, from the gauge it enters to the record it leaves |
| Gauges.EverySeriesIsACount | pkg/metrics/request.go:32-66 | In every run of overlapping requests each series equals the number of requests that belong under it; none is negative |
| Gauges.GaugesDrain | pkg/proxy/lifecycle.go:208-277 | Once every request has ended, however it ended, both gauges are back at zero |
| Metrics.LabelsAgreeExactlyWhen | pkg/metrics/labels.go:80-148 | Two requests are counted together if and only if verbs, scopes, statuses and terminations are equal or outside the vocabulary; a word of it is its own label |
| Metrics.Recorder.RequestFinished | pkg/metrics/request.go:52-66 | The four collectors at the end of a request |
| Metrics.Recorder.RequestStarted | pkg/metrics/request.go:32-37 | The in-flight gauge goes up by one |
| Metrics.Recorder.LongRunningEstablished | pkg/metrics/request.go:42-47 | The long-running series of the request's labels goes up by one |
| ClientIP.OutgoingClientAgrees | pkg/proxy/context/context.go:298-351 | The address resolved from the arriving chain and from what the reverse proxy sends differ if and only if the chain is listed in Connection and the client is not the peer, or it is not listed and a later line surfaces |
| ClientIP.LaterLinesDisagree | pkg/proxy/logging/accesslog.go:295-321 | A request of that family for which the access record and the extra disagree |
| ClientIP.ListedChainsDisagree | pkg/proxy/logging/accesslog.go:295-321 | A request that lists its chain, for which the access record and the extra disagree |
| ClientIP.SanitizingKeepsClient | pkg/proxy/context/context.go:103-127 | Sanitising keeps the resolved client |
| ClientIP.SanitizedHeader | pkg/proxy/context/context.go:103-127 | Of a forwarded chain only the resolved client is left, nothing when that is the peer, no X-Real-Ip, and every other header as it was |
| ClientIP.SanitizingIsIdempotent | pkg/proxy/context/context.go:103-127 | Sanitising twice is sanitising once |
| ClientIP.SanitizingKeepsShape | pkg/proxy/context/context.go:103-127 | Sanitising keeps names canonical and lists non-empty, and touches nothing but the forwarding headers |
| ClientIP.RightmostUntrusted | pkg/proxy/context/context.go:325-351 | The result is the rightmost hop that is not a well-formed trusted one, if it is an address |
| ClientIP.ResolveClientIP | pkg/proxy/context/context.go:325-351 | The loop over the hops computes that |
| ClientIP.ResolveForAccessLog | pkg/proxy/logging/accesslog.go:295-321 | The second resolver computes the same address |
| ClientIP.Inbound.SanitizeForwardHeaders | pkg/proxy/context/context.go:103-127 | The header map is edited in place to the specified one |
| TokenCache.KeyStreamIsInjective | pkg/proxy/tokenreview/tokenreview.go:205-231 | The bytes hashed are equal if and only if token and audiences are |
| TokenCache.WriteKey | pkg/proxy/tokenreview/tokenreview.go:209-223 | The loop writes that stream |
| TokenCache.CachedTokenReview.LookUp | pkg/proxy/tokenreview/tokenreview.go:175-188 | What is stored for a token is a hit for exactly its class's TTL, and a hit is a definitive review of this very token |
| TokenCache.CachedTokenReview.Finish | pkg/proxy/tokenreview/tokenreview.go:190-203 | An answer is returned and stored for its class's TTL; an error is neither |
| TokenCache.CachedTokenReview.AuthenticateToken | pkg/proxy/tokenreview/tokenreview.go:175-203 | With a fixed reviewer the cached authenticator answers as the bare one |
| WarningLimiter.AdmissionIsBounded | pkg/logging/ratelimit.go:66-87 | In any window, flushes included, at most the burst plus the rate times its length is admitted for one reason |
| WarningLimiter.AdmittedExactlyWhenItFits | pkg/logging/ratelimit.go:66-87 | A record is admitted if and only if it stays within that bound for every window that ends with it |
| WarningLimiter.NothingIsLost | pkg/logging/ratelimit.go:66-129 | Per reason, offered equals admitted plus summarised plus pending |
| WarningLimiter.ReasonsAreIndependent | pkg/logging/ratelimit.go:74-78 | A reason's bucket, admissions and summaries are those of its own history |
| WarningLimiter.Limiter.Allow | pkg/logging/ratelimit.go:66-87 | One token or one more drop, and no other reason touched |
| WarningLimiter.Limiter.Drain | pkg/logging/ratelimit.go:114-129 | Exactly the reasons with drops, with their counts, sorted; counts are zeroed and buckets kept |
| Hooks.Registry.AddPreShutdownHook | pkg/proxy/hooks/hooks.go:64-75 | The ordered registry and its index stay in step |
| Hooks.Registry.RunPreShutdownHooks | pkg/proxy/hooks/hooks.go:90-121 | Exactly the hooks registered at the start run, in order, failures stop nothing, and late registrations wait |
| Hooks.PassReportsEach | pkg/proxy/hooks/hooks.go:90-121 | A pass reports one outcome for each hook, in order, and returns exactly the failures |
| Hooks.RegisteringKeepsOrder | pkg/proxy/hooks/hooks.go:26-33 | Re-registering keeps every name in its place and replaces one hook; a new name goes last |
| DocSection.PutPut | hack/eventdoc/main.go:87-100 | Writing twice is writing the second table, if and only if the first does not hold the end marker |
| DocSection.PutGet | hack/eventdoc/main.go:87-100 | What was written is read back, if and only if it does not hold the end marker |
| DocSection.OutsideSurvives | hack/metricdoc/main.go:87-100 | All text outside the markers, and the markers, survive |
| DocSection.SecondRunChangesNothing | hack/metricdoc/main.go:87-100 | A second run changes nothing, if and only if the table does not hold the end marker |
| DocSection.FailsExactlyWithoutOrderedMarkers | hack/eventdoc/main.go:87-100 | It fails exactly for a missing marker or an end marker before the first begin marker |
| DocSection.ProgramMarkersAreGood | hack/eventdoc/main.go:22-23 | The markers of both programs have the shape the laws need |

## Left out

- Listeners, TLS, client-go, slog, Prometheus internals, cobra and file access: I/O behind the parameters above.
- JWT verification, CEL, the union authenticator and the audit filters: library code, taken as parameters.
- The RequestInfo filter ahead of the lifecycle filter: a request it refuses enters none of this.
- The Authorization header: the authenticator's removal of it is not modelled, and the token RoundTrip puts back is
  whatever the context holds.
- Records other than the access record: their order inside a filter, levels and texts. The anomaly, dropped-header
  and rewritten-header records are not part of the pipeline's log.
- Reaching the review API with a token, its audiences check and timeouts: the token reviewer is a parameter.
- The classification of a probe error by its text: it is a parameter with the two findings the code looks for.
- IssuerName's parsing of a URL: an arbitrary function of the URL.
- Escaping and rendering of the generated tables, configuration hashing, option validation, request-id validation,
  path sanitising, bounding of logged values: correct but small.
- Pipeline.Proxy.Serve: the bodies the reverse proxy copies are not modelled, and its transport calls carry arbitrary
  headers. ClientIP models its edits of the chain; those for trailers, upgrades and the user agent are left out.
- Pipeline.Proxy.ServeHTTP: the request-id filter is left out.
- ReviewMachine: the flight group's own panics and the pooling of hash states are not modelled.
- OnTheWire: a response the server took counts as written; that a panic discards what is still buffered is not
  modelled.
- Wall-clock latency and liveness: the code makes no scheduling promise.
- The non-aliasing of the authenticator's collections in withImpersonateRequest: the collections are values here, so
  a mutation through an alias cannot be expressed.
