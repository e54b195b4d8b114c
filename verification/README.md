# Nester API: verified resilience and integrity kernels

This project models, in Dafny, the parts of the Nester API that have to be right under
concurrency, over long runs or at the edges of machine arithmetic, and proves what they
promise: the circuit breaker and its transport, the idempotency middleware, the
tamper-evident audit log, progressive lockout and the authentication guard, the two rate
limiters, the freshness tracker and its headers, the flag cache, the read-your-writes
database router, and the edit distance behind the typosquatting check.

`dafny verify dfyconfig.toml` checks everything.

## How the model is built

Code that updates state in place is a class, or a method with loops, whose `ensures` ties
the new state to a function of the old one. What the system promises is proved about those
functions, over every run of a step relation, or as equivalence with an independent
definition: a timestamped log for the breaker's ring, shortest edit scripts for the table,
unbounded integers for saturating arithmetic, a map that never forgets for the evicting
one. Where a promise fails on some inputs the model keeps the code as it is and the theorem
says exactly when the promise holds.

| files | contents |
|---|---|
| `BreakerWindow`, `Breaker`, `BreakerRuns`, `UpstreamRoutes`, `BreakerLaws` | rolling window, breaker class, every interleaving of calls, routing and one round trip, and what each call does |
| `Idempotency`, `IdempotencyLaws`, `ResponseRecorder`, `IdempotentReplay` | the protocol as a step relation, what it gives its clients, the recording writer, and the two joined: what a replay sends and for which request |
| `LabelledText`, `AuditText`, `AuditChain`, `AuditService`, `AuditLaws` | when labelled lines can be read back, what is hashed, verification, the writers and tamper evidence, what is recorded and reported |
| `EditDistance` | the table, shortest scripts, metric laws, the report |
| `AuthLockout`, `LockoutRuns` | backoff, evicting tracker, the guard and its runs |
| `RateLimit`, `Freshness`, `FlagCache`, `ReplicaRouter` | one component each |
| `Arithmetic`, `Texts`, `Int64`, `Options` | helpers |

Clocks, randomness, stores, hashes and handlers are parameters: instants are integers that
never go back along a run (nanoseconds, except milliseconds in Redis), a store call is one
atomic step that may fail with or without having taken effect, SHA-256 is any
collision-free function, and a handler is any sequence of writes.

## Where the code and its promise differ

- Breaker: a configured window of 1 to 9 ns makes the bucket width zero and advancing divides by it (`DefaultsUsableIff`).
- Breaker: a snapshot shows half-open also while somebody holds the probe, so "half-open" does not mean that a call would be admitted; "open" and "closed" are exact (`SnapshotTruthful`, `HalfOpenCanRefuse`).
- Breaker: bucket widths are rounded down, so outcomes within nine tenths of the window are all counted only if the window leaves a remainder of at most one when divided by ten (`NineTenthsCountIff`).
- Idempotency: "two concurrent requests never both execute" holds as long as no row expires under a claimant that still has store calls to make, and every such expiry can lead to two handlers under way at once (`ExpirySafeIff`). That includes rows already completed, when storing took effect but reported an error (`CompletedRowStillOwned`).
- Idempotency: "a key reused with a different request is never answered with the wrong stored response" fails in two ways. A response is stored by row key alone, so a claimant whose row expired under it can complete a row that another body has claimed since; every expiry under a claimant that still has store calls to make can lead to that, and no other (`ReplaySafeIff`, `WrongReplayAfterExpiry`). And a request waiting on a row does not compare fingerprints again when it polls; if the row was released and claimed anew it can be given the response to another body (`WaitingRowCanBeLost`, `LostRowCanMismatch`, `PollMatchesIff`).
- Idempotency: a claim that took effect but reported an error, or whose process died, leaves a row in progress that blocks its key until it expires (`RowsCanBeStranded`, `StrandedUntilExpiry`).
- Recorder: the client does not always see the response as it would without the recorder. If the handler begins with an informational header and follows it by a header other than 200, that second header is lost, and in no other case does the client notice anything (`PassThroughIff`, `EarlyHintsLoseStatus`). If the handler begins with an informational header, the stored status is not the one the client got (`CopiedStatusExactIff`); the replay sends the same nevertheless (`ReplayDeliversSameIff`).
- Audit: nothing keeps the label of the next line out of the actor, action or target. What is hashed is evident exactly when they hold none (`EvidentIff`, `TamperEvidentIff`).
- Audit: the redaction flag is not hashed and no redaction entry is asked for, so payloads are evident only where neither copy is flagged: flagging a row lets its payload be replaced by any other (`PayloadChangeNoticedIff`, `FlaggedPayloadUnverified`).
- Audit: of the tables made of some rows of the log, verification accepts exactly the beginnings of the log, so entries missing at the end are not noticed (`DeletionsNoticedIff`).
- Lockout: a large failure count can turn the duration negative after all, and then nobody is locked out. The computed backoff is the promised one for every count if and only if the first doubling of Base that reaches Max fits in 64 bits (`LockoutExactIff`); for every Base, if and only if Max is at most 2^62 (`CapExactIff`, `LockedForNegativeTime`).
- Lockout: locks are never cut short and are announced exactly once if and only if the computed locks never shrink and none exceeds the failure window plus one nanosecond (`LocksHoldIff`), which for policies that fit in 64 bits means Max at most Window + 1 (`LocksHoldForWindowIff`).
- Lockout: any status below 400 clears the slate of both keys, also that of a request for a challenge, which proves nothing. A caller that asks for a challenge before every wrong signature fails as often as it likes without ever being locked out, exactly when a single failure does not lock (`TurnsUnpunishedIff`, `TurnsFailHalf`).
- Rate limits: a window below one millisecond limits nothing in Redis (`ZeroWindowPassesAll`); the Redis limiter's Retry-After rounds down, so it suffices only when less than a second is left (`RedisRetryAfterIff`); a token bucket with a limit below one still lets the first call of every key through (`LimitBelowOnePassesFirst`).
- Freshness: the lag header of a saturated lag is negative (`SaturatedLagHeader`); comparing the two headers gives the stale flag exactly for whole-second budgets (`HeadersDecideIff`) and lags that do not wrap when rounded up (`HeadersRightIff`).
- Flag cache: an invalidation is lost exactly when a call for that flag is between its source read and its cache write (`InvalidationEffectiveIff`).
- Router: read-your-writes needs a lag budget no longer than the pin window plus one nanosecond (`ReadYourWritesIff`). When the 64-bit cursor wraps around, the primary can serve although a replica is usable, and replicas can miss their turn, unless the number of replicas divides 2^64 (`PrimaryOnlyWhenNoneIff`, `RoundRobinIff`).

## Model

| member | source | states |
|---|---|---|
| `BreakerRuns.RingRefinesLog` | apps/api/internal/breaker/breaker.go:352-401 | in every reachable state, the ring brought up to `now` totals exactly the outcomes logged since the last close at or after a cut at least nine and less than ten bucket widths back: the last nine bucket widths always count, nothing a full window old does |
| `BreakerRuns.NineTenthsCountIff` | apps/api/internal/breaker/breaker.go:238-253 | every outcome no older than nine tenths of the configured window counts in every reachable state, if and only if the window modulo ten is at most one |
| `BreakerRuns.SingleProbe` | apps/api/internal/breaker/breaker.go:287-300 | over every interleaving there is at most one unreported probe of the current generation, the slot is taken exactly when one exists, and only in half-open |
| `BreakerRuns.SupersededPermitInert` | apps/api/internal/breaker/breaker.go:324-333 | reporting a permit from before the last transition changes neither mode, counts nor probe slot; a current permit was issued in the current mode |
| `BreakerRuns.TransitionDiscipline` | apps/api/internal/breaker/breaker.go:411-438 | the history of modes follows closed, open, half-open, then closed or open; the generation is the number of transitions; two openings are at least OpenDuration apart |
| `BreakerRuns.OpenAdmitsNobody` | apps/api/internal/breaker/breaker.go:282-290 | no permit belongs to an open period, and none issued later is issued before OpenDuration has passed since the opening |
| `BreakerRuns.RejectedExactlyWhen` | apps/api/internal/breaker/breaker.go:273-305 | a call is refused if and only if the open period is still running or an unreported current probe exists, so ignored probes never strand the breaker |
| `BreakerRuns.OpensExactlyWhen` | apps/api/internal/breaker/breaker.go:352-370 | an outcome counted while closed opens the breaker if and only if the log since the cut, this outcome included, reaches MinRequests and the failure ratio |
| `BreakerRuns.SnapshotTruthful` | apps/api/internal/breaker/breaker.go:470-522 | a snapshot shows open exactly when the open period would refuse a call, closed exactly when an ordinary permit would be granted, a half-open one means admission exactly when nobody holds the probe, and RetryIn is the exact wait |
| `BreakerRuns.HalfOpenCanRefuse` | apps/api/internal/breaker/breaker.go:470-475 | for every policy that can open, a reachable state whose snapshot shows half-open with nothing to wait for while a call is refused |
| `BreakerRuns.CanOpenIff` | apps/api/internal/breaker/breaker.go:153-167 | some run opens the breaker if and only if the failure ratio is at most one |
| `BreakerRuns.SnapshotsInvisible` | apps/api/internal/breaker/breaker.go:476-488 | removing every snapshot from any timed sequence of calls changes no answer, no transition and no transition snapshot |
| `BreakerRuns.RunKeepsInv` | apps/api/internal/breaker/breaker.go:264-361 | the invariant joining mode history, permits, probe slot and log is kept by every legal run |
| `BreakerLaws.ProbeFailed` | apps/api/internal/breaker/breaker.go:345-347 | in every reachable state, a current probe reported as failed opens the breaker: one transition, everybody refused and told the exact wait for OpenDuration from then, and admitted after it |
| `BreakerLaws.ProbeSucceeded` | apps/api/internal/breaker/breaker.go:345-349 | one reported as succeeded closes it with empty totals, and everybody is admitted |
| `BreakerLaws.ProbeIgnored` | apps/api/internal/breaker/breaker.go:331-341 | one reported as ignored changes nothing but the slot, and the next caller is given a probe |
| `BreakerLaws.RoundTripLogged` | apps/api/internal/breaker/transport.go:184-204 | through a closed breaker, errors that are not cancellations, status 429 and statuses from 500 on are logged as failures, other statuses as successes, cancellations and empty endings not at all |
| `BreakerLaws.TransitionsAnnounced` | apps/api/internal/breaker/breaker.go:411-438 | an event is emitted exactly when the mode changes, with the modes before and after |
| `BreakerLaws.RefusalTellsWait` | apps/api/internal/breaker/breaker.go:447-453 | a caller refused during the open period is told the first instant at which a call passes; one refused because of a probe is told zero |
| `BreakerLaws.SnapshotCounts` | apps/api/internal/breaker/breaker.go:495-522 | a snapshot's totals are those of the log since the cut, its ratio is their quotient, and its rejections are the calls refused so far |
| `BreakerLaws.DefaultsComplete` | apps/api/internal/breaker/breaker.go:125-149 | positive settings are kept, others become half, ten, a minute and fifteen seconds |
| `BreakerWindow.AdvanceTwice` | apps/api/internal/breaker/breaker.go:383-401 | advancing the window in two stages equals advancing once, the reset after ten or more steps included |
| `BreakerWindow.AdvanceSummarises` | apps/api/internal/breaker/breaker.go:383-401 | after advancing, every slot still holds exactly the logged outcomes of its own bucket interval |
| `BreakerWindow.CountSummarises` | apps/api/internal/breaker/breaker.go:352-355 | counting an outcome in the current bucket is logging it |
| `BreakerWindow.TotalsAreRecentLog` | apps/api/internal/breaker/breaker.go:372-378 | the sums over the buckets are the tally of one suffix interval of the log |
| `CircuitBreaker.DefaultsUsableIff` | apps/api/internal/breaker/breaker.go:135-149 | defaults make a policy usable if and only if the configured window is not 1 to 9 ns |
| `CircuitBreaker.RingTotals` | apps/api/internal/breaker/breaker.go:372-378 | adding the ring in storage order gives the totals by age, whatever the index |
| `CircuitBreaker.RingStep` | apps/api/internal/breaker/breaker.go:394-397 | moving the index on and clearing that bucket ages all other buckets by one and drops the oldest |
| `CircuitBreaker.Breaker.constructor` | apps/api/internal/breaker/breaker.go:238-253 | usable if and only if the window is not 1 to 9 ns, and then closed, of generation zero, with an empty window starting now |
| `CircuitBreaker.Breaker.AdvanceTo` | apps/api/internal/breaker/breaker.go:383-401 | the in-place ring, unrolled by age, becomes the advanced window value |
| `CircuitBreaker.Breaker.Counts` | apps/api/internal/breaker/breaker.go:372-378 | the loop over the ring returns the totals of the window value |
| `CircuitBreaker.Breaker.SnapshotAt` | apps/api/internal/breaker/breaker.go:495-522 | totals, ratio, shown mode and RetryIn of the present state, which it does not change |
| `CircuitBreaker.Breaker.HasTripped` | apps/api/internal/breaker/breaker.go:364-370 | whether the totals reach the minimum number and the failure ratio |
| `CircuitBreaker.Breaker.SetMode` | apps/api/internal/breaker/breaker.go:411-438 | the whole new state and the event of a transition; none if the mode is unchanged |
| `CircuitBreaker.Breaker.Allow` | apps/api/internal/breaker/breaker.go:273-305 | answer, event and whole new state of asking for a permit |
| `CircuitBreaker.Breaker.Record` | apps/api/internal/breaker/breaker.go:312-361 | event and whole new state of reporting an outcome, void and stale permits included |
| `CircuitBreaker.Breaker.TakeSnapshot` | apps/api/internal/breaker/breaker.go:476-522 | a snapshot changes the window's position only, and shows the advanced state |
| `UpstreamRoutes.Routes.Register` | apps/api/internal/breaker/transport.go:45-75 | succeeds if and only if there is a breaker, the URL parses, its host is not empty and no route has the same host and trimmed path; distinctness is kept |
| `UpstreamRoutes.TrailingSlashIrrelevant` | apps/api/internal/breaker/transport.go:58-61 | one trailing slash of an upstream's path makes no difference |
| `UpstreamRoutes.Routes.For` | apps/api/internal/breaker/transport.go:88-113 | none exactly when nothing matches; otherwise the one match with a strictly longer prefix than every other |
| `UpstreamRoutes.OrderIrrelevant` | apps/api/internal/breaker/transport.go:88-113 | tables with the same routes in any order send every request to the same breaker |
| `UpstreamRoutes.RoundTrip` | apps/api/internal/breaker/transport.go:134-148 | without a breaker the upstream is called; with one it is called exactly when a permit is granted, and that permit is reported exactly once |
| `Idempotency.HandlerRunsBounded` | apps/api/internal/middleware/idempotency.go:155-195 | for any requests, crashes and store failures, handler starts for one row are at most one more than its releases and expiries |
| `Idempotency.ReplaysAreAuthentic` | apps/api/internal/middleware/idempotency.go:202-246 | in every run, a replayed response is the copy some handler run for the same row left behind |
| `Idempotency.RunKeepsInv` | apps/api/internal/middleware/idempotency.go:35-44 | the invariant on rows, claims, waiting requests and copied responses is kept by every run of the store's atomic actions |
| `Idempotency.RunKeepsOwner` | apps/api/internal/middleware/idempotency.go:155-195 | in patient runs every request at work owns its row, and completed rows hold their owner's response |
| `Idempotency.PatientRunsAreExclusive` | apps/api/internal/middleware/idempotency.go:35-44 | if no row expires under a claimant at work, no two handlers for one row are ever under way at once, and a replay from the row the claim was lost to answers the request's own fingerprint |
| `Idempotency.ExpirySafeIff` | apps/api/internal/repository/postgres/idempotency_repository.go:125-131 | in every state reached by a patient run, letting a row expire can lead, with patience from then on, to overlapping handlers if and only if its claimant still has store calls to make |
| `Idempotency.OverlapAfterExpiry` | apps/api/internal/middleware/idempotency.go:74-89 | the run that leads to the overlap, from whichever phase the claimant is in |
| `Idempotency.ReplaySafeIff` | apps/api/internal/middleware/idempotency.go:91-97 | in every state reached by a patient run, letting a row expire can lead, with patience from then on, to a replay of another fingerprint's response from the very row the claim was lost to, if and only if its claimant still has store calls to make |
| `Idempotency.MismatchAfterExpiry` | apps/api/internal/repository/postgres/idempotency_repository.go:92-110 | the run that leads there, from whichever phase the claimant is in |
| `Idempotency.WrongReplayAfterExpiry` | apps/api/internal/repository/postgres/idempotency_repository.go:92-110 | a concrete run in which a poll finds the row it waited on, with its own fingerprint, and yet is given the response to another body |
| `Idempotency.LostRowCanMismatch` | apps/api/internal/middleware/idempotency.go:224-242 | once the row a request waits on is gone, some run gives it the response to a different fingerprint |
| `Idempotency.WaitingRowCanBeLost` | apps/api/internal/middleware/idempotency.go:166-181 | for any row and fingerprint, a patient run after which a request waits on a row that was released |
| `Idempotency.PollMatchesIff` | apps/api/internal/middleware/idempotency.go:224-242 | in patient runs, a polled replay answers the waiting request's fingerprint if and only if the row found carries it, and it does if the row is the one the claim was lost to |
| `Idempotency.CompletedRowStillOwned` | apps/api/internal/middleware/idempotency.go:74-89 | a reachable state in which a row is completed while its claimant is still retrying |
| `Idempotency.CompleteWithRetry` | apps/api/internal/middleware/idempotency.go:74-89 | attempts are at most three, all but the last failed, none follows a cancelled back-off; success if and only if the last one did |
| `Idempotency.ServeExisting` | apps/api/internal/middleware/idempotency.go:202-246 | conflict if and only if the fingerprint differs; otherwise the stored response, the first completed poll, or too early |
| `IdempotencyLaws.CompletedIsReplayed` | apps/api/internal/middleware/idempotency.go:184-218 | once a handler has returned and storing its response succeeded, with patient expiries before and none of that row after, whoever claims the row is told that response if its fingerprint agrees and of a conflict otherwise, and whoever waits is told it at the next look |
| `IdempotencyLaws.CompletedRowStays` | apps/api/internal/repository/postgres/idempotency_repository.go:116-121 | a completed row stays completed until it expires, whatever is released |
| `IdempotencyLaws.ThreeAttempts` | apps/api/internal/middleware/idempotency.go:74-89 | two failed attempts to store are followed by another, the third by a release |
| `IdempotencyLaws.StrandedUntilExpiry` | apps/api/internal/middleware/idempotency.go:202-246 | a row in progress that nobody works on blocks its key in every run until it expires: no handler starts, whoever comes meets a conflict or waits and is told too early |
| `IdempotencyLaws.RowsCanBeStranded` | apps/api/internal/middleware/idempotency.go:155-164 | a claim that took effect but failed, and a crash, lead there |
| `IdempotencyLaws.LostRowEndsWaiting` | apps/api/internal/middleware/idempotency.go:224-242 | a wait for a row that is gone ends too early |
| `ResponseRecorder.RecordingWriter.WriteHeader` | apps/api/internal/middleware/idempotency.go:307-314 | the copy and what goes out after a header, later headers ignored |
| `ResponseRecorder.RecordingWriter.Write` | apps/api/internal/middleware/idempotency.go:316-322 | the copy and what goes out after a body part, with an implied 200 |
| `ResponseRecorder.WriteStored` | apps/api/internal/middleware/idempotency.go:248-259 | what a client receives from a stored response |
| `ResponseRecorder.RecordedFaithful` | apps/api/internal/middleware/idempotency.go:295-322 | the relation between copy and sent response is kept by every sequence of calls |
| `ResponseRecorder.BodyIsWritten` | apps/api/internal/middleware/idempotency.go:316-322 | the client receives and the copy holds all parts written, in order |
| `ResponseRecorder.ReplayDeliversSameIff` | apps/api/internal/middleware/idempotency.go:248-322 | for every sequence of header and body calls, the replay sends what the first client received if and only if the first status is not zero |
| `ResponseRecorder.CopiedStatusExactIff` | apps/api/internal/middleware/idempotency.go:307-314 | the stored status is the received one if and only if the handler's first call is not an informational header |
| `ResponseRecorder.PassThroughIff` | apps/api/internal/middleware/idempotency.go:291-322 | the client receives what it would without the recorder if and only if the handler does not begin with an informational header followed by a header other than 200 |
| `ResponseRecorder.EarlyHintsLoseStatus` | apps/api/internal/middleware/idempotency.go:307-314 | headers 103 and 201: the client is told 200, the copy says 103, and a direct writer would have said 201 |
| `ResponseRecorder.SameRowSameRequest` | apps/api/internal/middleware/idempotency.go:263-289 | equal row and fingerprint if and only if method, path, client key and body are equal, with no condition on any of them |
| `ResponseRecorder.RowIsEndpointIff` | apps/api/internal/middleware/idempotency.go:263-265 | a row key belongs to one method, path and client key if and only if path and key are free of the separator |
| `IdempotentReplay.ReplaySendsWhatWasReceived` | apps/api/internal/middleware/idempotency.go:184-218 | over every run, with any failures, crashes and expiries, a replay sends the headers, status and body that the client of the completed execution received, for any sequence of calls of its handler |
| `IdempotentReplay.ReplayIsForSameRequest` | apps/api/internal/middleware/idempotency.go:199-218 | over every patient run, a replay from the row the claim was lost to sends what the client of an identical request received: same user, method, path, key and body |
| `LabelledText.CleanReadBack` | apps/api/internal/audit/audit.go:81-87 | fields between labelled lines are determined by the text if no label occurs in a field beside it |
| `LabelledText.Ambiguous` | apps/api/internal/audit/audit.go:81-87 | if one does, other fields have the same text and differ only around that label |
| `AuditText.SerializeUniqueIff` | apps/api/internal/audit/audit.go:81-87 | the hashed text belongs to one entry only if and only if no free field holds the label of its own line or of the next |
| `AuditText.FrontDecides` | apps/api/internal/audit/audit.go:81-87 | among entries whose previous hash holds no newline, as in every chain, the first three labels alone decide |
| `AuditText.PlainIff` | apps/api/internal/audit/audit.go:81-87 | for entries with a real detail hash that is a condition on actor, action and target alone |
| `AuditChain.VerifyChain` | apps/api/internal/audit/audit.go:238-314 | intact if and only if every selected row fits the one before and its own hashes; otherwise the first row that does not, with the first check it fails |
| `AuditLaws.MissingRowReported` | apps/api/internal/audit/audit.go:268-271 | a missing row is reported as a gap at the row after it |
| `AuditLaws.ChangedPayloadReported` | apps/api/internal/audit/audit.go:286-296 | a payload without its hash is reported at its row, unless flagged |
| `AuditLaws.ChangedLinkReported` | apps/api/internal/audit/audit.go:273-284 | a changed link is reported at its row |
| `AuditLaws.ChangedEntryReported` | apps/api/internal/audit/audit.go:298-303 | a change that changes the hashed text is reported at its row |
| `AuditChain.SubrangeAccepted` | apps/api/internal/audit/audit.go:238-314 | every part of an accepted range is accepted |
| `AuditChain.RangesGlue` | apps/api/internal/audit/audit.go:238-314 | accepted ranges that share an end point are accepted as one |
| `AuditService.Service.LogAction` | apps/api/internal/audit/audit.go:138-236 | appends the one entry that continues the chain, with the actor, action, target, payload and time passed in |
| `AuditLaws.LogRecordsRun` | apps/api/internal/audit/audit.go:138-236 | over every run the entries are, one for one and in order, the appended actions and the logged redactions, with everything that was passed in; payloads may have been redacted since |
| `AuditLaws.RedactionIsOwed` | apps/api/internal/audit/audit.go:316-332 | a redaction that is made is followed by an entry naming its sequence and keys, one that is not made by none |
| `AuditLaws.NothingRedacted` | apps/api/internal/audit/audit.go:355-382 | a redaction of a missing row, of a payload that is no object, or of keys that do not occur leaves the table as it was |
| `AuditService.Service.RedactDetail` | apps/api/internal/audit/audit.go:337-407 | the new table and outcome of a redaction: missing row, payload that is no object, nothing to redact, or redacted |
| `AuditService.BlankedOutExactly` | apps/api/internal/audit/audit.go:370-385 | exactly the listed fields that exist are blanked out, all others are kept |
| `AuditService.RedactionExact` | apps/api/internal/audit/audit.go:337-407 | a redaction changes that row only, blanks out exactly the listed fields, flags it and keeps its hashes |
| `AuditService.RunKeepsChain` | apps/api/internal/audit/audit.go:138-236 | every run keeps the chain, and keeps the hashed part and hash of every entry once written |
| `AuditService.EveryRunVerifies` | apps/api/internal/audit/audit.go:316-332 | for every interleaving of appends and two-part redactions, sequences run from 1 without gaps and every range verifies |
| `AuditService.EvidentIff` | apps/api/internal/audit/audit.go:254-307 | for any two tables that verify from 1 and share the entry hash at k: they must agree on every hashed field up to k, and on the printed payload where neither copy is flagged as redacted, if and only if no entry of the one up to k holds the action's, target's or detail hash's label in a field beside it |
| `AuditService.TamperEvidentIff` | apps/api/internal/audit/audit.go:254-307 | for the log of a run, that is a condition on the actor, action and target that callers supplied |
| `AuditService.TamperEvident` | apps/api/internal/audit/audit.go:254-307 | a run whose appended fields are plain, such as free of newlines, is evident in that sense at every position |
| `AuditService.AmbiguousForgery` | apps/api/internal/audit/audit.go:276-300 | any entry that is not can be replaced by a different one in a table that still verifies with all hashes unchanged |
| `AuditService.PayloadChangeNoticedIff` | apps/api/internal/audit/audit.go:286-296 | a table with the payload and flag of one row replaced is accepted if and only if the row is now flagged or the payload has the stored hash |
| `AuditService.FlaggedPayloadUnverified` | apps/api/internal/audit/audit.go:286-296 | any payload of any row can be replaced by any other under the flag, and every range still verifies |
| `AuditService.TruncationAccepted` | apps/api/internal/audit/audit.go:238-314 | every prefix of the log of a run verifies over every range |
| `AuditService.DeletionsNoticedIff` | apps/api/internal/audit/audit.go:238-314 | a table made of some rows of the log, in the order of the query, is accepted over the whole range if and only if it is a beginning of the log |
| `EditDistance.Levenshtein` | scripts/typosquat_check.py:56-71 | the table filled in place ends in the distance of the two strings |
| `EditDistance.DistanceIsShortest` | scripts/typosquat_check.py:56-71 | a number is the distance if and only if it is the length of a shortest insert, delete and substitute script |
| `EditDistance.NoScriptShorter` | scripts/typosquat_check.py:56-71 | no script between two strings is shorter than their distance |
| `EditDistance.SomeScriptAsShort` | scripts/typosquat_check.py:56-71 | some script has exactly that length |
| `EditDistance.Metric` | scripts/typosquat_check.py:56-71 | zero exactly for equal strings, symmetric, triangle inequality, between the length difference and the longer length |
| `EditDistance.FindSuspicious` | scripts/typosquat_check.py:100-111 | the nested loops return the reports in order of dependency, then of known name |
| `EditDistance.ReportsExactly` | scripts/typosquat_check.py:100-111 | a pair is reported if and only if it is eligible and its lower-cased names differ and have a shortest script of at most two edits, whose length is the one reported |
| `EditDistance.ReportsOrdered` | scripts/typosquat_check.py:100-111 | reports come in the order of dependencies and then of known names |
| `EditDistance.ReportedOnce` | scripts/typosquat_check.py:100-111 | without repeated names no pair is reported twice |
| `AuthLockout.LockoutFor` | apps/api/internal/middleware/authlockout.go:65-84 | for every policy and failure count, the loop yields the 64-bit doubling that wraps around and stops at the cap |
| `AuthLockout.LockoutExactIff` | apps/api/internal/middleware/authlockout.go:62-84 | that is zero up to the threshold and min(Max, Base * 2^(failures - Threshold - 1)) beyond for every failure count, and never negative, if and only if the first doubling of Base that reaches Max fits in 64 bits |
| `AuthLockout.BackoffGrows` | apps/api/internal/middleware/authlockout.go:65-84 | the backoff is monotone in the failures, at most Max, and positive exactly past the threshold |
| `AuthLockout.CapExactIff` | apps/api/internal/middleware/authlockout.go:71-79 | the computed backoff is the promised one for every base and failure count if and only if Max is at most 2^62 |
| `AuthLockout.LockedForNegativeTime` | apps/api/internal/middleware/authlockout.go:71-79 | with Base 2^62 and any larger Max the second lock is minus 2^63 ns |
| `AuthLockout.BackoffReachesMax` | apps/api/internal/middleware/authlockout.go:65-84 | the cap is reached after as many extra failures as it takes doublings |
| `AuthLockout.MemoryLockout.Locked` | apps/api/internal/middleware/authlockout.go:203-216 | locked exactly when the recorded end lies ahead, with the time left |
| `AuthLockout.MemoryLockout.EvictExpired` | apps/api/internal/middleware/authlockout.go:254-260 | exactly the entries with both window and lock over are removed |
| `AuthLockout.MemoryLockout.RecordFailure` | apps/api/internal/middleware/authlockout.go:218-241 | new map, lock and announcement after a failure |
| `AuthLockout.MemoryLockout.Reset` | apps/api/internal/middleware/authlockout.go:243-247 | forgets that key and no other |
| `AuthLockout.EvictionInvisible` | apps/api/internal/middleware/authlockout.go:203-260 | the evicting tracker answers every timed sequence of calls exactly like one that never evicts |
| `AuthLockout.NothingExpiredKept` | apps/api/internal/middleware/authlockout.go:254-260 | after a failure the tracker holds no other key with both window and lock over |
| `AuthLockout.ChargeIsTheLock` | apps/api/internal/middleware/authlockout.go:218-241 | the duration returned for a failure is exactly how long its key is then locked |
| `AuthLockout.RetryAfterIsTheRest` | apps/api/internal/middleware/authlockout.go:203-216 | the wait told to a locked key is exactly how long it stays locked |
| `AuthLockout.ClearedBeginsAnew` | apps/api/internal/middleware/authlockout.go:243-247 | a cleared key is unlocked and its next failure counts as that of a key never seen |
| `LockoutRuns.LocksHoldIff` | apps/api/internal/middleware/authlockout.go:203-241 | for every policy, over all runs, locks are announced exactly when they begin and never end early except by reset, if and only if computed locks never shrink and none exceeds Window + 1 (with a negative window: if and only if a first failure is not locked) |
| `LockoutRuns.LocksHoldForWindowIff` | apps/api/internal/middleware/authlockout.go:203-241 | if the doubling fits in 64 bits: if and only if Max is at most Window + 1 |
| `LockoutRuns.LongLockBreaks` | apps/api/internal/middleware/authlockout.go:218-241 | a lock longer than the window plus one is cut short or announced twice in some run |
| `LockoutRuns.ShorterLockBreaks` | apps/api/internal/middleware/authlockout.go:218-241 | a lock shorter than an earlier one cuts it short in some run |
| `LockoutRuns.AuthGuard.Handle` | apps/api/internal/middleware/authguard.go:104-166 | whether the handler is reached, and both trackers afterwards, by the checks in order and the status |
| `LockoutRuns.ReachedExactlyWhen` | apps/api/internal/middleware/authguard.go:104-127 | the handler is reached if and only if neither wallet nor address is locked and the wallet's limiter allows it; otherwise nothing changes |
| `LockoutRuns.StatusDecides` | apps/api/internal/middleware/authguard.go:147-166 | a status below 400 forgets both keys; a 4xx other than 429 is one more failure of the address, and of the wallet if named, within the window; 429 and 5xx change nothing |
| `LockoutRuns.StreakSpaced` | apps/api/internal/middleware/authguard.go:104-166 | for every policy and whatever the guard serves one at a time, failures of a wallet or an address with no success and no gap longer than the window between them are at least the lock of the earlier one apart |
| `LockoutRuns.LockoutsEnforced` | apps/api/internal/middleware/authguard.go:104-166 | in such a streak failure Threshold + 1 + j comes at least the sum of the first j locks after failure Threshold + 1 |
| `LockoutRuns.OneStreak` | apps/api/internal/middleware/authguard.go:147-166 | if no request for the key has a status below 400 and its failures are at most a window apart, they are all one streak |
| `LockoutRuns.BackoffEnforced` | apps/api/internal/middleware/authguard.go:104-166 | if moreover the doubling fits in 64 bits, that sum is the sum of min(Max, Base * 2^i) for i below j |
| `LockoutRuns.TurnsUnpunishedIff` | apps/api/internal/middleware/authguard.go:147-156 | a caller that alternates a request answered 200 and one answered 401 is never refused, however long it goes on, if and only if a single failure locks neither wallet nor address, as with thresholds of at least one |
| `LockoutRuns.TurnsNeverLock` | apps/api/internal/middleware/authguard.go:147-166 | then no key is ever locked and after every success both trackers are empty |
| `LockoutRuns.TurnsFailHalf` | apps/api/internal/middleware/authguard.go:147-166 | half of its requests are counted as failures of the wallet and of the address |
| `RateLimit.TokenBucketLimiter.Allow` | apps/api/internal/middleware/ratelimit.go:57-86 | verdict, wait and whole new table of buckets, for any limit |
| `RateLimit.LimitBelowOnePassesFirst` | apps/api/internal/middleware/ratelimit.go:57-86 | with a limit below one a call passes if and only if it is the first of its key |
| `RateLimit.RunOk` | apps/api/internal/middleware/ratelimit.go:57-86 | tokens stay between zero and the limit over every run |
| `RateLimit.TokenBucketBound` | apps/api/internal/middleware/ratelimit.go:57-86 | over every run, at most limit + limit * D / window calls of a key pass between calls D apart |
| `RateLimit.TokenBucketWindowBound` | apps/api/internal/middleware/ratelimit.go:57-86 | at most twice the limit in any interval of one window |
| `RateLimit.RefusedOnlyAtLimit` | apps/api/internal/middleware/ratelimit.go:57-86 | over every run, a call is refused only if at least limit calls of its key passed in the window ending with it |
| `RateLimit.FirstCallsPass` | apps/api/internal/middleware/ratelimit.go:60-66 | the first limit calls of a key all pass |
| `RateLimit.RetryAfterSuffices` | apps/api/internal/middleware/ratelimit.go:79-85 | coming back after the announced whole seconds, with no call of that key in between, passes |
| `RateLimit.RetryAfterTight` | apps/api/internal/middleware/ratelimit.go:79-85 | a second before the announced wait is over the client would still be refused |
| `RateLimit.RedisLimiter.Allow` | apps/api/internal/middleware/ratelimit_backend.go:58-98 | verdict, wait and new counters of the atomic script |
| `RateLimit.FixedWindowBound` | apps/api/internal/middleware/ratelimit_backend.go:58-98 | over every run, at most twice the limit passes in any interval of one window, also of the up to one millisecond longer window that was configured |
| `RateLimit.PassesExactlyWhen` | apps/api/internal/middleware/ratelimit_backend.go:58-98 | over every run, a call passes if and only if it begins a window, or fewer than limit calls of its key came before it in the running one |
| `RateLimit.ZeroWindowPassesAll` | apps/api/internal/middleware/ratelimit_backend.go:58-98 | with a window passed on as zero milliseconds every call of every sequence passes |
| `RateLimit.RedisRetryAfterIff` | apps/api/internal/middleware/ratelimit_backend.go:88-97 | coming back after the announced seconds passes if and only if less than a second was left |
| `Freshness.Tracker.Observe` | apps/api/internal/freshness/freshness.go:155-167 | the new sample replaces the old one, errors are kept |
| `Freshness.Tracker.ObserveFailure` | apps/api/internal/freshness/freshness.go:175-184 | the sample is kept and the error count goes up, modulo 2^64 |
| `Freshness.Tracker.TakeSnapshot` | apps/api/internal/freshness/freshness.go:195-235 | the reported lag is the unbounded one cut off at the largest duration, and stale means it exceeds the budget |
| `Freshness.LagIsIdeal` | apps/api/internal/freshness/freshness.go:242-258 | saturating step by step equals computing without bounds and cutting off once, for all 64-bit ledgers |
| `Freshness.VerdictIdealIff` | apps/api/internal/freshness/freshness.go:195-235 | the stale verdict is the unbounded one for every sample and instant if and only if the budget is below the largest duration |
| `Freshness.StaleUntilSampled` | apps/api/internal/freshness/freshness.go:155-184 | once stale, stale through any failures and passing of time until a sample succeeds |
| `Freshness.SilentIndexerGoesStale` | apps/api/internal/freshness/freshness.go:134-152 | a tracker never sampled goes stale exactly one budget after it was made |
| `Freshness.SampleGoesStale` | apps/api/internal/freshness/freshness.go:195-235 | a sample is stale exactly when its age and five seconds per ledger behind exceed the budget |
| `Freshness.HeaderNeverUnderstatesIff` | apps/api/internal/middleware/freshness.go:101-106 | the header covers the duration if and only if adding most of a second does not wrap, and then by less than a second |
| `Freshness.SaturatedLagHeader` | apps/api/internal/middleware/freshness.go:82-106 | a saturated lag is stale and yet its header is negative |
| `Freshness.HeadersDecideIff` | apps/api/internal/middleware/freshness.go:82-106 | the lag header exceeds the budget header exactly when stale, for all lags up to MaxInt64 - 999999999, if and only if the budget is whole seconds |
| `Freshness.HeadersRightIff` | apps/api/internal/middleware/freshness.go:82-106 | with such a budget the two headers give the stale flag of a lag if and only if that lag is at most MaxInt64 - 999999999 |
| `FlagCache.Cache.Look` | apps/api/internal/flags/cache.go:44-46 | the first critical section returns the entry as it is |
| `FlagCache.Cache.Put` | apps/api/internal/flags/cache.go:57-59 | the second one stores that answer with its expiry, and touches no other flag |
| `FlagCache.Cache.Get` | apps/api/internal/flags/cache.go:43-62 | made of the two, with nothing in between: a fresh entry answers; otherwise the source does, and only definitive answers are cached |
| `FlagCache.Cache.Invalidate` | apps/api/internal/flags/cache.go:66-70 | forgets that flag and no other |
| `FlagCache.Cache.InvalidateAll` | apps/api/internal/flags/cache.go:74-78 | forgets every flag |
| `FlagCache.StalenessBounded` | apps/api/internal/flags/cache.go:43-62 | for every interleaving and any lost invalidations, a cache-served answer at t was the source's answer at an instant in (t - ttl - longest fetch, t] |
| `FlagCache.CachedAnswerServed` | apps/api/internal/flags/cache.go:43-50 | until the flag is invalidated or written again, every call within the time to live is served the cached answer without asking the source |
| `FlagCache.FailureNotCached` | apps/api/internal/flags/cache.go:52-61 | a failed source read serves and caches nothing |
| `FlagCache.InvalidationEffectiveIff` | apps/api/internal/flags/cache.go:66-78 | calls beginning after an invalidation only return answers read since, in every continuation, if and only if no call for the flag is between source read and cache write |
| `ReplicaRouter.Router.ReadAny` | apps/api/internal/db/router.go:143-164 | the cursor moves on by one modulo 2^64 and the first usable probe is chosen |
| `ReplicaRouter.Router.Read` | apps/api/internal/db/router.go:129-134 | a pinned user gets the primary, anybody else the round-robin choice, and a run-out pin is dropped |
| `ReplicaRouter.Router.NoteWrite` | apps/api/internal/db/router.go:169-173 | pins a named user and nobody else |
| `ReplicaRouter.Router.SetReplicaHealth` | apps/api/internal/db/router.go:183-192 | changes that replica's health, nothing for an index out of range |
| `ReplicaRouter.Router.SetReplicaLag` | apps/api/internal/db/router.go:196-205 | changes that replica's lag, nothing for an index out of range |
| `ReplicaRouter.MemoryPinner.Pin` | apps/api/internal/db/router.go:274-278 | the user is pinned for one window from now |
| `ReplicaRouter.MemoryPinner.Pinned` | apps/api/internal/db/router.go:281-293 | pinned up to and including the end; the pin is removed after it |
| `ReplicaRouter.PrimaryOnlyWhenNone` | apps/api/internal/db/router.go:143-164 | before the cursor wraps, the primary serves if and only if no replica is usable |
| `ReplicaRouter.PrimaryOnlyWhenNoneIff` | apps/api/internal/db/router.go:148-155 | that holds at every cursor value if and only if the number of replicas divides 2^64 |
| `ReplicaRouter.RoundRobin` | apps/api/internal/db/router.go:143-164 | before the cursor wraps, n reads over n usable replicas visit each exactly once |
| `ReplicaRouter.RoundRobinIff` | apps/api/internal/db/router.go:148-155 | that holds at every cursor value if and only if n divides 2^64 |
| `ReplicaRouter.ReadsTakeTurns` | apps/api/internal/db/router.go:129-164 | with nobody pinned, n consecutive reads of a run over n usable replicas are sent to each exactly once |
| `ReplicaRouter.UnhealthyNotRead` | apps/api/internal/db/router.go:183-192 | a replica marked unhealthy gets no read in any run until it is marked healthy |
| `ReplicaRouter.BehindNotRead` | apps/api/internal/db/router.go:196-205 | a replica reported above its lag budget gets no read in any run until it is reported within it |
| `ReplicaRouter.ReadYourWritesIff` | apps/api/internal/db/router.go:42-46 | with truthful lags, every read of every run sees all writes the user noted, if and only if there is a lag budget of at most the pin window plus one nanosecond |

## Left out

- Breaker: the 64-bit wrap-around of the generation and rejection counters, the saturation of time differences, and the rounding of the failure ratio, which is an exact quotient here.
- Breaker: `Config.Validate`, names, the transition callback and the parsing of upstream URLs, whose outcome is given.
- Idempotency: the claim's insert and read are one atomic step, a row may expire at any moment whatever its time to live, and polling pauses and deadlines are choices of the run.
- Idempotency: choosing the guarded routes and the user, size limits on bodies, and headers other than the content type.
- ReplaySendsWhatWasReceived: the first status is not zero, which the server refuses; the content type, and status codes whose body the server suppresses, are not part of what is compared.
- RowIsEndpointIff: takes methods without spaces, as HTTP methods are.
- Audit: hash, timestamp printing and payload printing are parameters; payloads are trees, and the parsing of raw text details and their wrapping when they are not JSON are not modelled. Anchoring is not part of this model.
- Audit: transactions are atomic steps, and the unique index on the sequence column is the assumption that tables are ascending.
- EvidentIff: agreement on payloads is agreement on their printed form, which is what is hashed, and only where neither copy is flagged as redacted.
- FindSuspicious: lower-casing, the sorting of dependencies and the iteration order of the known names are parameters.
- Lockout: the Redis tracker, and finding wallet, address and stage in a request. The wallet limiter's verdict is part of each attempt.
- StreakSpaced: requests are handled one at a time; requests that pass the checks together are not modelled.
- RedisRetryAfterIff: Redis is taken to drop a key once the clock is past its expiry millisecond, and at once if its time to live is zero.
- TokenBucketLimiter.Allow: for positive windows; with others, and for the wait under a limit of zero, the source divides by zero.
- Rate limits: floating-point tokens are exact reals, and Redis errors, which let requests pass, do not occur.
- Freshness: printing of headers, and the branch for a missing tracker.
- Cache.Get: one call that nothing interrupts; its interleavings are those of the step relation in the same module.
- FlagCache: the delivery of invalidation messages; any of them may be lost.
- Router: opening and closing of pools, statistics, the Redis pinner and transactions.
- Configuration, request handlers, metrics, the response cache, cryptography and tokens, harvest and forecast: mostly single branches, sums or library calls.
