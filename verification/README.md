# Helpdesk backend: verified models

Five components of the helpdesk backend hold state machines or arithmetic whose
promises go beyond any one function. Each is modelled in the form its code has, a class
whose methods update its fields, every method proved equal to a function on the
state; the promises are then proved about those functions, over every run.

`dafny verify dfyconfig.toml` checks everything.

**The publisher of ticket-service** (`Publisher`, `PublisherProofs`, `PublisherTheorems`,
`PublisherCalls`).
Any number of `Publish` calls share `cur`, `gen`, `inflight` and `lastFail` under a mutex,
while dials, waits, closes and publishes run outside it. `Publisher.Publisher` is the
struct, one method for each critical section. `Publisher.System` interleaves
them: one program counter for each call and one `Step` for each atomic action, with ghost
history (sessions dialed, closed and installed, and a log of dials). `PublisherCalls` says what
one call does, move by move, in whatever run it is part of.

**The token buckets of the gateway** (`TokenBucket`, `TokenBucketProofs`,
`TokenBucketTheorems`, `TokenBucketInvisible`, `RedisTheorems`, `RedisClock`). `RateLimiter` and
`RedisLimiter` are the two limiters, over real numbers; traces mix requests of any keys with
cleanup passes, or with keys the Redis server drops once they have expired. The proofs see a
bucket as a level that refills with time; `RedisClock` restates them for calls given by Redis's
`TIME`, in seconds and microseconds.

**The refresh-token sessions of auth-service** (`SessionStore`, `SessionRecency`,
`FakeSessions`, `SessionHandler`, `SessionTheorems`, `SessionEvents`). The table with its cap, rotation and
revocation; the append-ordered list the service's own tests put in its place; and the
handler, whose `Refresh` is a lookup and a rotation with anything in between. `SessionEvents`
says of each request which tokens are live after it.

**The ticket workflow of ticket-service** (`TicketWorkflow`, `TicketProofs`,
`TicketTheorems`, `TicketRules`, `TicketTimeline`, `TicketRuns`). A use-case call reads the ticket, reads
the clock and writes, in separate steps interleaved with those of other calls. What holds in every
interleaving is proved so; what fails in some comes with a run that shows it, a proof for
calls that do not overlap, and the exact condition on a step or on a history. `TicketRules` says
who may begin what, and what is then written.

**The persisting consumer and the forwarded-address walk of notification-service**
(`PersistConsumer`, `PersistTheorems`, `PersistDeliveries`, `ClientIp`, `ClientIpTheorems`,
`ClientCidr`). The delivery loop
with the queue it drains, together with competing replicas, lost connections and late
writes; and the right-to-left walk over `X-Forwarded-For`, with the networks it trusts.

## Where the code and what is said of it differ

- The window bound of the in-memory limiter does not hold of every configuration: a
  cleanup pass may forget a bucket that is not full again, and a burst below one request
  still lets a first one through. With a positive rate it holds if and only if
  `1 <= burst <= 180 * rate` (`WindowBoundExactly`). Deleting every denied request from a
  trace never changes another decision (`AllDeniedInvisible`); deleting only some of them,
  or the cleanup passes, is invisible under that same condition (`SomeDeniedExactly`,
  `ForgettingExactly`). The Redis limiter forgets only full buckets when `burst >= 1`, and
  decides as the in-memory one if and only if that holds (`RedisRefinesExactly`).
- Persistence is called exactly-once across the fleet (consumer.go:80). Of messages for a
  user that are acked after being put back r times, it is guaranteed if and only if r is 0
  (`ExactlyOnceExactly`): they leave between one and r + 1 rows (`AckedIsPersisted`), and for
  every r there is a run with r + 1 (`RedeliveryCanDuplicate`).
- `closed` is called terminal (ticket_usecase.go:24-26). A closed ticket leaves that status
  exactly when an assignment, or a status update to another status, comes to be written,
  and then the update had read another status (`LeavesClosedExactly`); there is a run in which a second
  `UpdateStatus` reopens it (`UpdateReopensClosed`). When calls on the ticket do not
  overlap, only an admin's `AssignTicket` does (`SerialLeavesClosedExactly`).
- Agents may only claim an unassigned ticket, and are told so otherwise
  (ticket_usecase.go:16-18 and 115-119). The check and the write are separate steps: there
  is a run in which two agents claim the same ticket and both succeed (`BothClaim`). A claim
  takes nobody's ticket if and only if nothing has been written to the ticket since the
  claim read it (`ClaimReadsUntouched`, `ClaimTakesNobodysExactly`); when calls on the
  ticket do not overlap that is always so (`SerialCalls`).
- `FindHistory` orders by `changed_at` alone. That is the order in which the rows were
  written if and only if the times strictly increase (`TimelineExactly`); it ends in the
  ticket's status if and only if every latest row went there (`TimelineEndsExactly`), and
  there is a run in which it does not (`TimelineCanMislead`).
- `fakeSessions` is said to mirror the repository. While creation times do not go back, a
  rotation differs if and only if it replaces a stored token by that of another session: the
  table rolls back while the list has lost the old session (`RotateRefines`). A creation differs if and only if it is not refused and the
  cap keeps an expired row of the user: the table prunes it, the list knows no expiry
  (`CreateRefines`).
- A bare address among the trusted proxies is called a single-host network. That is so if
  and only if it is not written as an IPv4-mapped IPv6 address (`BareAddressExactly`):
  `::ffff:10.0.0.1` gets the suffix `/32` and becomes `::/32`, which does not contain that
  host and does contain `::1` (`MappedEntryMisses`).

## Model

| member | source | states |
|---|---|---|
| Publisher.Publisher.constructor | backend/ticket-service/internal/delivery/messaging/publisher.go:93-110 | A new publisher is at generation 1 with the startup session, or at generation 0 without one; nothing is in flight and no failure is noted |
| Publisher.Publisher.Current | backend/ticket-service/internal/delivery/messaging/publisher.go:112-116 | The session and its generation are read together |
| Publisher.Publisher.EnterReconnect | backend/ticket-service/internal/delivery/messaging/publisher.go:122-146 | The first critical section: replaced already, wait for the one in flight, cooling down, or lead, in that order; only the leader changes anything (what each means over a run is `PublisherCalls.ReconnectDecides`) |
| Publisher.Publisher.SettleDial | backend/ticket-service/internal/delivery/messaging/publisher.go:151-161 | The second critical section installs the session at the next generation and hands back the one it replaced, or notes the failure; either way nothing is in flight any more and the channel is closed |
| Publisher.Publisher.Recheck | backend/ticket-service/internal/delivery/messaging/publisher.go:135-138 | After a wait, reconnect succeeds exactly when there is a session at another generation than the one that failed |
| Publisher.DialAMQP | backend/ticket-service/internal/delivery/messaging/publisher.go:249-320 | A session exactly when one of the attempts connects and every setup step succeeds; a failed dial leaves no connection and no channel open; no attempt follows a successful one, and there is no sleep after the last |
| PublisherProofs.RunInv | backend/ticket-service/internal/delivery/messaging/publisher.go:112-199 | The invariant (generations, channels, leader, ownership of sessions, calls, dial log) holds after every run |
| PublisherTheorems.NoLeak | backend/ticket-service/internal/delivery/messaging/publisher.go:122-167 | After every run each session ever dialed is accounted for exactly once: current, closed once, or in the hands of one call about to install or close it |
| PublisherTheorems.QuietMeansClosed | backend/ticket-service/internal/delivery/messaging/publisher.go:163-165 | With no call in progress every session but the current one has been closed, exactly once |
| PublisherTheorems.SingleFlight | backend/ticket-service/internal/delivery/messaging/publisher.go:122-161 | `inflight` is set exactly while one call leads; the leader is alone and still at the failed generation; every waiter holds the current channel or a closed one |
| PublisherTheorems.GenerationsCountInstalls | backend/ticket-service/internal/delivery/messaging/publisher.go:83-91 | `gen` is the number of sessions ever installed, `cur` the last of them, and none is installed twice |
| PublisherTheorems.ReplacedOnce | backend/ticket-service/internal/delivery/messaging/publisher.go:151-161 | Only the leader's second critical section replaces the session, moving on by one from the very generation that failed for it |
| PublisherTheorems.AtMostOnce | backend/ticket-service/internal/delivery/messaging/publisher.go:169-199 | A Publish hands its message off at most once, with at most two publishes and two dials, never publishes on a nil session and never closes a closed channel |
| PublisherTheorems.RetryIsNewer | backend/ticket-service/internal/delivery/messaging/publisher.go:182-197 | The retry follows a failed attempt and is on another session at a strictly newer generation |
| PublisherTheorems.ActionsAreFinite | backend/ticket-service/internal/delivery/messaging/publisher.go:122-199 | Every action of a call disturbs no other call and brings it closer to the end, except that a waiter may stay |
| PublisherTheorems.WaitersAreReleased | backend/ticket-service/internal/delivery/messaging/publisher.go:128-139 | A waiter stays only while another call leads and its deadline, within the bounded wait, is ahead |
| PublisherTheorems.CallCanFinish | backend/ticket-service/internal/delivery/messaging/publisher.go:122-199 | From every reachable state any one call can reach its end by its own actions and the passing of time, without another call moving |
| PublisherTheorems.AllCanFinish | backend/ticket-service/internal/delivery/messaging/publisher.go:122-199 | From every reachable state all calls can finish: there is no deadlock |
| PublisherTheorems.DialsSpaced | backend/ticket-service/internal/delivery/messaging/publisher.go:140-158 | Dials never overlap, and none starts within the cooldown of a failed one |
| PublisherTheorems.FailsFastExactlyInCooldown | backend/ticket-service/internal/delivery/messaging/publisher.go:140-143 | With no dial running and the session not replaced, a call fails fast if and only if some dial failed less than the cooldown ago; otherwise it dials |
| PublisherTheorems.DialRate | backend/ticket-service/internal/delivery/messaging/publisher.go:140-158 | While every dial fails, at most floor(T / cooldown) + 1 start in any window of length T, whatever the number of callers |
| PublisherCalls.CallStarts | backend/ticket-service/internal/delivery/messaging/publisher.go:172-180 | A call takes the session and generation that are current when it starts; without a session it asks for a reconnect |
| PublisherCalls.PublishEnds | backend/ticket-service/internal/delivery/messaging/publisher.go:182-197 | A publish is on the session the call holds; it ends the call if it succeeds or is the retry, and otherwise the call asks for a reconnect away from that generation and will retry |
| PublisherCalls.HealthyPublish | backend/ticket-service/internal/delivery/messaging/publisher.go:172-185 | With a session that works the message is handed off at the first attempt, without a dial |
| PublisherCalls.ReconnectDecides | backend/ticket-service/internal/delivery/messaging/publisher.go:122-146 | A call that asks for a reconnect goes on if the session was replaced; else waits on the channel in flight until 1.5 seconds from now; else gives up if a dial failed within the cooldown; else leads, with an open channel of its own and nothing else changed |
| PublisherCalls.RenewedIsUsed | backend/ticket-service/internal/delivery/messaging/publisher.go:124-127 | A call that finds the session already replaced publishes on the new one |
| PublisherCalls.GoesOn | backend/ticket-service/internal/delivery/messaging/publisher.go:173-179 | A call whose reconnect is over publishes on the session that is current then, at its generation |
| PublisherCalls.WaiterGoesOn | backend/ticket-service/internal/delivery/messaging/publisher.go:128-139 | A waiter whose channel is closed publishes on the new session if there is one at another generation than the one that failed, and gives up if there is not |
| PublisherCalls.WaiterTimesOut | backend/ticket-service/internal/delivery/messaging/publisher.go:132-133 | A waiter that takes its timer, which is due no earlier than the deadline, gives up |
| PublisherCalls.WaiterReuses | backend/ticket-service/internal/delivery/messaging/publisher.go:128-139 | When the dial of the call it waits for succeeds, a waiter's own moves take it to a publish on the session that call dialed, at a newer generation than the one that failed for it |
| PublisherCalls.LeaderSettles | backend/ticket-service/internal/delivery/messaging/publisher.go:149-161 | A dial that succeeds is installed at the next generation and the replaced session is left to be closed; one that fails leaves the session, notes the time and ends the call; either way waiters are released |
| PublisherCalls.LeaderPublishes | backend/ticket-service/internal/delivery/messaging/publisher.go:149-167 | A leader whose dial succeeds closes the session it replaced, if any, and publishes on the one it dialed |
| PublisherCalls.OutageMinute | backend/ticket-service/internal/delivery/messaging/publisher.go:140-158 | While every dial fails, at most 31 start within a minute |
| TokenBucket.RateLimiter.constructor | backend/api-gateway/cmd/middleware.go:96-104 | A new limiter has no visitors |
| TokenBucket.RateLimiter.Allow | backend/api-gateway/cmd/middleware.go:106-129 | Decision and new buckets are those of `Admit`: a fresh bucket admits and holds burst - 1; a known one is refilled, capped, and admits if it holds a token |
| TokenBucket.RateLimiter.Evict | backend/api-gateway/cmd/middleware.go:139-147 | Exactly the visitors last seen before the cutoff are gone; the others keep their buckets |
| TokenBucket.RedisLimiter.constructor | backend/api-gateway/cmd/redis_limiter.go:65-70 | The time to live is the one the formula gives, in milliseconds |
| TokenBucket.RedisLimiter.RunAt | backend/api-gateway/cmd/redis_limiter.go:31-54 | Verdict and store are those of the script at Redis's TIME in whole milliseconds, (seconds * 1000000 + micros) / 1000, whether or not the server had dropped an expired key |
| TokenBucket.RedisLimiter.Allow | backend/api-gateway/cmd/redis_limiter.go:72-84 | The verdict of the script under the prefixed key; without an answer, whether or not the script ran, the request is let through |
| TokenBucket.RedisLimiter.LogErr | backend/api-gateway/cmd/redis_limiter.go:86-95 | An error is logged exactly when the interval has passed since the last one that was |
| TokenBucketProofs.LevelComposes | backend/api-gateway/cmd/middleware.go:117-121 | Saturating refill composes over time |
| TokenBucketProofs.RequestLevel | backend/api-gateway/cmd/middleware.go:106-129 | A request is allowed exactly when the level is at least one, takes one token if so, and moves no other key's level |
| TokenBucketProofs.CleanupLevel | backend/api-gateway/cmd/middleware.go:131-147 | With burst <= 180 * rate a cleanup pass changes no level |
| TokenBucketProofs.Budget | backend/api-gateway/cmd/middleware.go:106-147 | What was allowed since an instant plus what is left in the bucket never exceeds the burst plus what was earned |
| TokenBucketTheorems.WindowBound | backend/api-gateway/cmd/middleware.go:106-147 | Over any calls and cleanup passes, a key's requests allowed in [s, t] number at most burst + rate * (t - s), with burst at least 1 and no cleanup forgetting a bucket that is not full |
| TokenBucketTheorems.EvictionOverruns | backend/api-gateway/cmd/middleware.go:131-147 | With burst > 180 * rate there is a trace that exceeds the bound |
| TokenBucketTheorems.WindowBoundExactly | backend/api-gateway/cmd/middleware.go:106-147 | The bound holds of every trace if and only if 1 <= burst <= 180 * rate |
| TokenBucketTheorems.GreedyIsOptimal | backend/api-gateway/cmd/middleware.go:106-129 | On every trace, whatever the burst and the cleanup passes, the limiter admits at least as many requests of a key as any policy that never overdraws the same bucket |
| TokenBucketTheorems.LimiterNeverOverdraws | backend/api-gateway/cmd/middleware.go:106-129 | The limiter is itself such a policy |
| TokenBucketInvisible.SameLevels | backend/api-gateway/cmd/middleware.go:117-128 | Dropping denied requests and cleanup passes leaves every level where it was, at every later time |
| TokenBucketInvisible.AllDeniedInvisible | backend/api-gateway/cmd/middleware.go:106-129 | Deleting every denied request from a trace changes no other decision, for every burst and whatever the cleanup passes forget |
| TokenBucketInvisible.DeniedAndForgottenInvisible | backend/api-gateway/cmd/middleware.go:117-128 | With 1 <= burst, and burst <= 180 * rate if there are cleanup passes, deleting any denied requests and cleanup passes from a trace changes no other decision |
| TokenBucketInvisible.SomeDeniedExactly | backend/api-gateway/cmd/middleware.go:106-147 | Deleting some denied requests, with every cleanup pass kept, is invisible in every trace if and only if 1 <= burst <= 180 * rate |
| TokenBucketInvisible.ForgettingExactly | backend/api-gateway/cmd/middleware.go:131-147 | Deleting the cleanup passes is invisible in every trace under the same condition |
| TokenBucketInvisible.InvisibleExactly | backend/api-gateway/cmd/middleware.go:106-147 | So is deleting any denied requests and cleanup passes |
| TokenBucketTheorems.SpacedNeverDenied | backend/api-gateway/cmd/middleware.go:117-128 | A client that spaces its requests at least 1/rate apart is never denied, even across cleanup passes |
| TokenBucketTheorems.SpacedExactly | backend/api-gateway/cmd/middleware.go:106-129 | That holds of every trace if and only if burst is at least 1 |
| RedisTheorems.TtlOutlasts | backend/api-gateway/cmd/redis_limiter.go:65-70 | For every rate and every burst of at least 1, a key can only expire once its bucket is full |
| RedisTheorems.ScriptIsAdmit | backend/api-gateway/cmd/redis_limiter.go:31-54 | On equal buckets the script decides as the in-memory limiter does and leaves equal buckets, also when it finds the key expired |
| RedisTheorems.RedisRefinesInMemory | backend/api-gateway/cmd/redis_limiter.go:25-70 | The same decisions for every sequence of calls on the same millisecond clock, whichever expired keys are dropped and however late |
| RedisTheorems.RedisRefinesExactly | backend/api-gateway/cmd/redis_limiter.go:25-70 | Under the time to live the limiter computes, the decisions are the same for every sequence of calls if and only if burst is at least 1 |
| RedisTheorems.RedisWindowBound | backend/api-gateway/cmd/redis_limiter.go:25-70 | The window bound of the bucket that all replicas share |
| RedisTheorems.RedisWindowBoundExactly | backend/api-gateway/cmd/redis_limiter.go:25-70 | It holds of every run if and only if burst is at least 1 |
| RedisTheorems.TtlExactly | backend/api-gateway/cmd/redis_limiter.go:65-70 | The time to live spelled out, in milliseconds |
| RedisTheorems.ClockGoesBack | backend/api-gateway/cmd/redis_limiter.go:45 | A clock that goes back earns nothing |
| RedisClock.MillisExactly | backend/api-gateway/cmd/redis_limiter.go:32-33 | The script's clock is the only whole number of milliseconds that TIME has reached and not passed |
| RedisClock.AnswersExactly | backend/api-gateway/cmd/redis_limiter.go:25-70 | For every sequence of calls given by Redis TIME the answers are those of an in-memory limiter on those instants cut to milliseconds |
| RedisClock.RedisTimeBound | backend/api-gateway/cmd/redis_limiter.go:25-70 | Of the calls of a key between two instants of Redis TIME, at most burst + rate * (their distance and a millisecond) are let through |
| SessionStore.RefreshTokenRepository.constructor | backend/auth-service/internal/repository/refresh_token_repository.go:23-25 | The table starts empty |
| SessionStore.RefreshTokenRepository.Find | backend/auth-service/internal/repository/refresh_token_repository.go:27-31 | A row stored under the token's hash, or nothing exactly when there is none |
| SessionStore.RefreshTokenRepository.Create | backend/auth-service/internal/repository/refresh_token_repository.go:39-67 | One transaction: insert, drop the user's expired rows, drop those beyond the cap; refused, and rolled back, when the token is stored |
| SessionStore.RefreshTokenRepository.Rotate | backend/auth-service/internal/repository/refresh_token_repository.go:69-85 | One transaction: the old row goes and the new one comes, or nothing changes |
| SessionStore.RefreshTokenRepository.DeleteSession | backend/auth-service/internal/repository/refresh_token_repository.go:87-90 | The row of that user and token goes, and no other |
| SessionStore.RefreshTokenRepository.DeleteByUser | backend/auth-service/internal/repository/refresh_token_repository.go:92-94 | All rows of the user go, and no other |
| SessionRecency.TopIsLimit | backend/auth-service/internal/repository/refresh_token_repository.go:61-65 | The rows with fewer than k predecessors are what `ORDER BY created_at DESC, id DESC LIMIT k` selects: min(k, all) rows, each before every row left out |
| SessionRecency.CreateContract | backend/auth-service/internal/repository/refresh_token_repository.go:39-67 | Create leaves its user the newest unexpired sessions, as many as the cap allows, touches no other user's, and changes nothing exactly when the token is a duplicate |
| SessionRecency.CreateKeepsExactly | backend/auth-service/internal/repository/refresh_token_repository.go:39-67 | A creation that is not refused keeps a row, the new one included, if and only if it is another user's, or it has not expired and, with a positive cap, fewer than that many newer sessions of the user are kept |
| SessionRecency.RotateContract | backend/auth-service/internal/repository/refresh_token_repository.go:69-85 | Rotate replaces exactly one session; it fails exactly when the old token is not stored or another session has the new one, and then changes nothing |
| SessionRecency.CapIsDropFirst | backend/auth-service/internal/delivery/http/sessions_test.go:92-111 | On a list in creation order the cap keeps what dropping the user's first rows keeps |
| SessionRecency.CreateRefines | backend/auth-service/internal/delivery/http/sessions_test.go:86-114 | When creation times do not go back, Create on the table has the outcome of Create on the list, and leaves the same rows if and only if it is refused or the cap keeps no expired row of the user |
| SessionRecency.ExpiryShows | backend/auth-service/internal/delivery/http/sessions_test.go:86-114 | An instance where it does not: a user with an expired session logs in again |
| SessionRecency.RotateRefines | backend/auth-service/internal/delivery/http/sessions_test.go:116-126 | Rotate on the table has the outcome of Rotate on the list, and leaves the same rows if and only if it does not replace a stored token by the token of another session |
| SessionRecency.DuplicateShows | backend/auth-service/internal/delivery/http/sessions_test.go:116-126 | An instance where it does: one session's token replaced by another's |
| SessionRecency.DeletesRefine | backend/auth-service/internal/delivery/http/sessions_test.go:128-151 | Both deletes on the table are those on the list |
| SessionRecency.RunOk | backend/auth-service/internal/domain/refresh_token.go:10-16 | Ids and tokens are unique after every sequence of operations |
| SessionRecency.RecencyRefinement | backend/auth-service/internal/repository/refresh_token_repository.go:39-94 | With creation times that do not go back, the table holds exactly the rows of the recency list throughout a run of any operations if and only if no creation keeps an expired row and no rotation brings the token of another session; the list is then in creation order |
| FakeSessions.FakeIsList | backend/auth-service/internal/delivery/http/sessions_test.go:55-151 | After any operations fakeSessions, with its own ids and its deletions of the first match, holds the rows of the recency list in the same order, up to ids, and no token twice |
| FakeSessions.SameLiveTokens | backend/auth-service/internal/delivery/http/sessions_test.go:52-151 | After any such run exactly the same tokens are live in the table and in fakeSessions |
| SessionHandler.AuthHandler.constructor | backend/auth-service/internal/delivery/http/handler.go:33-47 | The handler is given its repository and its cap |
| SessionHandler.AuthHandler.IssueSession | backend/auth-service/internal/delivery/http/handler.go:331-344 | A login stores one session under the configured cap, 5 when there is none; it fails only if the insert is refused |
| SessionHandler.AuthHandler.Lookup | backend/auth-service/internal/delivery/http/handler.go:235-272 | The lookup accepts exactly the tokens that are stored, valid, and stored for the user they name |
| SessionHandler.AuthHandler.RotateSession | backend/auth-service/internal/delivery/http/handler.go:277-290 | 401 when the rotation finds no such token, 500 when the new one is refused, otherwise the new token |
| SessionHandler.AuthHandler.Refresh | backend/auth-service/internal/delivery/http/handler.go:227-291 | With nothing in between its halves: 401 and no change unless the token is stored for the user it names; 500 and no change if another session has the new one; otherwise the session is replaced by one of seven days for the same user |
| SessionHandler.AuthHandler.Logout | backend/auth-service/internal/delivery/http/handler.go:401-405 | With a token only that session of the user ends, without one all of them |
| SessionHandler.AuthHandler.RevokeAll | backend/auth-service/internal/delivery/http/handler.go:566-568 | A password change ends all sessions of the user |
| SessionTheorems.RunInv | backend/auth-service/internal/delivery/http/handler.go:227-405 | The invariant (unique rows, lineage, rotations, revocations, cap) holds after every run, with any positive cap |
| SessionTheorems.AtMostCapSessions | backend/auth-service/internal/delivery/http/handler.go:49-54 | No reachable state gives a user more sessions than the cap |
| SessionTheorems.LinearLineage | backend/auth-service/internal/delivery/http/handler.go:227-291 | Over every interleaving each refresh token is rotated successfully at most once and is then dead, and at most one of the tokens descended from one login is live |
| SessionTheorems.RotationWins | backend/auth-service/internal/delivery/http/handler.go:277-288 | A refresh past its lookup succeeds if and only if its token is still live when it rotates; exactly that token dies and exactly the new one comes alive |
| SessionTheorems.RevocationIsFinal | backend/auth-service/internal/repository/refresh_token_repository.go:92-94 | After all sessions of a user are revoked, no token issued to the user before, nor any descendant of one, is live again, nor does a refresh of one that had passed its lookup succeed |
| SessionTheorems.OverStaysOver | backend/auth-service/internal/repository/refresh_token_repository.go:39-94 | Once no live token descends from a login, for whatever reason, none ever does again |
| SessionTheorems.OverIsFinal | backend/auth-service/internal/delivery/http/handler.go:236-288 | Then no token of that login is live in any later state, and no refresh of one succeeds, even one that had passed its lookup |
| SessionTheorems.LogoutEndsLogin | backend/auth-service/internal/delivery/http/handler.go:401-402 | Logging out with a live token of the user leaves no live token of that login |
| SessionEvents.LiveExactly | backend/auth-service/internal/repository/refresh_token_repository.go:27-31 | A token is live if and only if a row is stored under its hash |
| SessionEvents.LoginIsLiveExactly | backend/auth-service/internal/delivery/http/handler.go:331-344 | After any run, a login's token is live if and only if it does not expire before the database's clock and its user has fewer unexpired sessions newer than it than the cap, which is 5 unless a positive one is set |
| SessionEvents.LoginIsLive | backend/auth-service/internal/repository/refresh_token_repository.go:39-67 | So with clocks that do not go back every login starts a live session |
| SessionEvents.LoginKeepsOthers | backend/auth-service/internal/repository/refresh_token_repository.go:51-66 | A login starts no other session and ends no other user's |
| SessionEvents.LookupExactly | backend/auth-service/internal/delivery/http/handler.go:235-272 | A refresh passes its lookup if and only if its token is valid and live; it is then about that token and the user it was issued to |
| SessionEvents.LogoutExactly | backend/auth-service/internal/delivery/http/handler.go:401-405 | Logging out of a session ends that one if it is the user's, and no other |
| SessionEvents.RevokeExactly | backend/auth-service/internal/delivery/http/handler.go:566-568 | Revoking a user's sessions ends all of them and nobody else's |
| SessionEvents.SevenDays | backend/auth-service/internal/delivery/http/handler.go:302-327 | After every run each stored session expires seven days after it was created |
| TicketWorkflow.TicketRepository.constructor | backend/ticket-service/internal/repository/ticket_repository.go:46-48 | No tickets and no history at first |
| TicketWorkflow.TicketRepository.Create | backend/ticket-service/internal/repository/ticket_repository.go:46-48 | A new ticket is open, unassigned and without history |
| TicketWorkflow.TicketRepository.FindByID | backend/ticket-service/internal/repository/ticket_repository.go:98-103 | The ticket, or nothing exactly when there is none |
| TicketWorkflow.TicketRepository.AssignAndTransition | backend/ticket-service/internal/repository/ticket_repository.go:105-129 | The agent, the time and the status change, and a row records the move from the status found in the same transaction; nothing happens to a missing ticket |
| TicketWorkflow.TicketRepository.TransitionStatus | backend/ticket-service/internal/repository/ticket_repository.go:131-153 | The status changes, with the time if it is resolved or closed, and a row records the move from the status the caller gives |
| TicketWorkflow.TicketUsecase.AssignTicket | backend/ticket-service/internal/usecase/ticket_usecase.go:120-145 | An admin assigns anyone at any time; an agent claims an unassigned ticket for themselves; anyone else is refused; a refused call changes nothing |
| TicketWorkflow.TicketUsecase.UpdateStatus | backend/ticket-service/internal/usecase/ticket_usecase.go:151-180 | Succeeds if and only if the ticket exists, the requester is an admin or the agent it is assigned to, and the move is one of the seven legal ones, with its own error otherwise; the ticket is returned as it was read, with the new status; a refused call changes nothing |
| TicketWorkflow.TicketUsecase.GetTicketByID | backend/ticket-service/internal/usecase/ticket_usecase.go:84-104 | Exactly an admin, the assigned agent or, of the others, the creator sees a ticket |
| TicketProofs.RunInv | backend/ticket-service/internal/usecase/ticket_usecase.go:120-180 | The invariant (rows and history agree, pending writes, undisturbed serial calls) holds after every run |
| TicketTheorems.AuditTrail | backend/ticket-service/internal/repository/ticket_repository.go:105-153 | In every interleaving a ticket's status is the target of its last history row, open without one; each timestamp is that of the last row to its status; every row is an edge of the workflow |
| TicketTheorems.PathExactly | backend/ticket-service/internal/usecase/ticket_usecase.go:120-180 | The history is a connected path from open if and only if no status update was written over another status than the one it had read |
| TicketTheorems.UnassignedMeansOpen | backend/ticket-service/internal/repository/report_repository.go:86-92 | In every interleaving the unassigned queue and its size are exactly the open tickets |
| TicketTheorems.OpenIsNeverReentered | backend/ticket-service/internal/usecase/ticket_usecase.go:24-32 | A ticket that has left open stays out, and its history only grows |
| TicketTheorems.PathTimes | backend/ticket-service/internal/repository/ticket_repository.go:113-139 | Along any connected history in time order, assigned_at <= resolved_at <= closed_at as far as the status has come, through reopenings and reassignments |
| TicketTheorems.TimestampsInOrder | backend/ticket-service/internal/usecase/ticket_usecase.go:27-32 | So they are for every ticket none of whose writes was stale or late |
| TicketTheorems.SerialCalls | backend/ticket-service/internal/usecase/ticket_usecase.go:120-180 | Calls on a ticket that do not overlap give a connected history in time order, ordered timestamps, and a self-claim that still finds the ticket unassigned |
| TicketTheorems.ClaimReadsUntouched | backend/ticket-service/internal/usecase/ticket_usecase.go:129-136 | An agent's claim is decided on a ticket without history |
| TicketTheorems.ClaimTakesNobodysExactly | backend/ticket-service/internal/usecase/ticket_usecase.go:115-144 | In every interleaving the ticket a claim is written to becomes the claimant's, and was nobody's if and only if it still had no history |
| TicketTheorems.OrderKeptExactly | backend/ticket-service/internal/repository/ticket_repository.go:113-139 | In every interleaving a step keeps a ticket's timestamps in order if and only if it writes nothing to it, or a time that fits: a resolution no earlier than the assignment, a closure no earlier than the resolution, which is no earlier than the assignment |
| TicketTheorems.LeavesClosedExactly | backend/ticket-service/internal/usecase/ticket_usecase.go:24-32 | A step takes a ticket out of closed if and only if it writes an assignment or a status update to another status; that update had read another status |
| TicketTheorems.SerialLeavesClosedExactly | backend/ticket-service/internal/usecase/ticket_usecase.go:24-32 | When calls on the ticket do not overlap, if and only if it writes an admin's assignment |
| TicketRules.LegalExactly | backend/ticket-service/internal/usecase/ticket_usecase.go:24-32 | The state machine is exactly seven pairs, listed |
| TicketRules.TrailIsLegal | backend/ticket-service/internal/usecase/ticket_usecase.go:27-32 | In every interleaving each row of the audit trail is an assignment or one of the seven moves |
| TicketRules.UpdateBegunExactly | backend/ticket-service/internal/usecase/ticket_usecase.go:151-174 | In every run a status update is begun if and only if the ticket exists, the requester is an admin or the agent it is assigned to, and the move is one of the seven; it is about the status that was read |
| TicketRules.AssignBegunExactly | backend/ticket-service/internal/usecase/ticket_usecase.go:120-144 | An assignment is begun if and only if the ticket exists and the requester is an admin, or an agent who names nobody else, of an unassigned ticket; an admin assigns whom they name, an agent themselves |
| TicketRules.CommitWritesExactly | backend/ticket-service/internal/repository/ticket_repository.go:105-153 | What is written to the ticket and to the history is what was decided, at the time the call read, and nothing else changes |
| TicketRules.ClockReadExactly | backend/ticket-service/internal/usecase/ticket_usecase.go:174 | A call writes the time at which it read the clock |
| TicketRules.CreateExactly | backend/ticket-service/internal/repository/ticket_repository.go:46-48 | A new ticket is its creator's, open, unassigned and without times or history |
| TicketRules.CreatorIsKept | backend/ticket-service/internal/repository/ticket_repository.go:105-153 | No ticket ever goes away or comes to belong to another user |
| TicketRules.OverlapExactly | backend/ticket-service/internal/usecase/ticket_usecase.go:120-174 | A ticket counts as overlapped if and only if some call read it while another was about to write it |
| TicketRuns.OverlapBreaksOrder | backend/ticket-service/internal/usecase/ticket_usecase.go:151-174 | A run whose calls overlap, ending with a ticket resolved before it was assigned and a history that is no path |
| TicketRuns.UpdateReopensClosed | backend/ticket-service/internal/usecase/ticket_usecase.go:157-174 | A run in which a status update, with no assignment involved, takes a ticket out of closed |
| TicketRuns.BothClaim | backend/ticket-service/internal/usecase/ticket_usecase.go:129-144 | A run in which two agents claim one ticket and the second claim takes it from the first |
| TicketRuns.TimelineCanMislead | backend/ticket-service/internal/repository/ticket_repository.go:155-162 | A run whose timeline can end in another status than the ticket |
| TicketTimeline.TimelineExactly | backend/ticket-service/internal/repository/ticket_repository.go:155-162 | Ordering by changed_at returns the rows in the order they were written, whatever the database does with ties, if and only if the times strictly increase |
| TicketTimeline.TimelineOfRun | backend/ticket-service/internal/repository/ticket_repository.go:155-162 | So for the history of every ticket any run produces |
| TicketTimeline.TimelineEndsExactly | backend/ticket-service/internal/repository/ticket_repository.go:155-162 | However ties are ordered, the timeline ends in the status the history ended in if and only if every row with the latest time went there |
| PersistConsumer.Consumer.constructor | backend/notification-service/internal/consumer/consumer.go:83-86 | Not connected at first |
| PersistConsumer.Consumer.Process | backend/notification-service/internal/consumer/consumer.go:141-165 | Malformed: nack and no row; a role broadcast: ack and no row; targeted: at most one row with the user and the body, and ack when it was stored without an error |
| PersistConsumer.Consumer.ConsumePersist | backend/notification-service/internal/consumer/consumer.go:130-184 | Every delivery of a connection gets its own verdict, in order, and leaves its own row; the consumer counts as disconnected afterwards |
| PersistTheorems.RunInv | backend/notification-service/internal/consumer/consumer.go:134-184 | The invariant (conservation, rows, what is known of each message) holds after every run |
| PersistTheorems.Conservation | backend/notification-service/internal/consumer/consumer.go:134-184 | With competing consumers, lost connections and redelivery, every routed message is in exactly one of ready, unacked, acked and dead-lettered, once, and nothing else is anywhere |
| PersistTheorems.AckedIsPersisted | backend/notification-service/internal/consumer/consumer.go:141-171 | An acked user-targeted message has left at least one row and at most one more than the times it was put back, so exactly one if never; a malformed one is never acked |
| PersistTheorems.RowsAreBounded | backend/notification-service/internal/consumer/consumer.go:159-171 | Acked or not, a message leaves at most one row more than the times it was put back |
| PersistTheorems.RowsAreTargeted | backend/notification-service/internal/consumer/consumer.go:155-162 | Every row has the user and the exact body of a user-targeted message; no role broadcast and no malformed message is ever persisted |
| PersistTheorems.BroadcastsAreNeverParked | backend/notification-service/internal/consumer/consumer.go:155-171 | No role broadcast is dead-lettered |
| PersistTheorems.SettledStays | backend/notification-service/internal/consumer/consumer.go:167-171 | What is acked or dead-lettered stays so, and no row is lost |
| PersistTheorems.RedeliveryCanDuplicate | backend/notification-service/internal/consumer/consumer.go:80-83 | For every r, and every message for a user, a run in which it is acked after being put back r times with r + 1 rows |
| PersistTheorems.ExactlyOnceExactly | backend/notification-service/internal/consumer/consumer.go:80-83 | In every run the messages for a user that are acked after being put back r times have exactly one row each, if and only if r is 0 |
| PersistDeliveries.RowsInOrder | backend/notification-service/internal/consumer/consumer.go:134-171 | The rows of a connection are those of its deliveries, in order: one for each message for a user that was stored, none for any other |
| PersistDeliveries.DeliveryEnds | backend/notification-service/internal/consumer/consumer.go:141-171 | In every run a message delivered, handled and settled is acked if it is for roles, or for a user and stored without an error, and dead-lettered otherwise; it leaves its row if it was stored |
| PersistDeliveries.LossPutsBack | backend/notification-service/internal/consumer/consumer.go:172-182 | When a connection is lost exactly what its consumer had not settled is put back, in front, and nothing settled changes |
| PersistDeliveries.LateWriteEnds | backend/notification-service/internal/consumer/consumer.go:155-162 | A write that comes after its connection was lost leaves its row once |
| ClientIp.TrustedProxies.constructor | backend/notification-service/internal/delivery/ws/clientip.go:10-15 | No proxy is trusted at first |
| ClientIp.TrustedProxies.SetTrustedProxies | backend/notification-service/internal/delivery/ws/clientip.go:17-41 | All the networks of the configuration are installed, or none when an entry is invalid |
| ClientIp.TrustedProxies.IsTrusted | backend/notification-service/internal/delivery/ws/clientip.go:43-54 | An address is trusted exactly when it parses and some network contains it |
| ClientIp.TrustedProxies.ClientIP | backend/notification-service/internal/delivery/ws/clientip.go:62-93 | The loop returns what the walk from the right returns |
| ClientIpTheorems.AcceptedExactly | backend/notification-service/internal/delivery/ws/clientip.go:19-41 | A configuration is accepted if and only if each entry is blank or a network |
| ClientIpTheorems.NetworksAreTheEntries | backend/notification-service/internal/delivery/ws/clientip.go:33-39 | The installed networks are exactly those of its entries |
| ClientIpTheorems.BareAddressExactly | backend/notification-service/internal/delivery/ws/clientip.go:17-41 | A bare address is accepted, and trusts exactly its host if and only if it is not written as an IPv4-mapped IPv6 address |
| ClientIpTheorems.MappedEntryMisses | backend/notification-service/internal/delivery/ws/clientip.go:26-37 | `::ffff:10.0.0.1` among the proxies trusts neither spelling of that host, and does trust `::1` |
| ClientCidr.DecimalIsRead | backend/notification-service/internal/delivery/ws/clientip.go:33 | The length after the slash is read as a decimal numeral |
| ClientCidr.HostExactly | backend/notification-service/internal/delivery/ws/clientip.go:43-54 | An IPv4-mapped address is one with 80 zeros and 16 ones in front, and stands for the IPv4 address that follows |
| ClientCidr.CidrTrustsExactly | backend/notification-service/internal/delivery/ws/clientip.go:19-54 | An entry of an address and a length that fits it is accepted, and trusts exactly the addresses of that width whose first bits, as many as the length says, are its own |
| ClientCidr.CidrIsRejected | backend/notification-service/internal/delivery/ws/clientip.go:33-36 | It is rejected when the address is none, or the length is missing, no number or too large |
| ClientCidr.BareIsRejected | backend/notification-service/internal/delivery/ws/clientip.go:22-36 | An entry without a slash that is no address is rejected, and a blank one skipped |
| ClientCidr.PodNetworkExactly | backend/k8s/apps/notification-service.yaml:18 | The deployed 10.244.0.0/16 trusts a.b.c.d if and only if a.b is 10.244 |
| ClientCidr.PodNetwork | backend/k8s/apps/notification-service.yaml:18 | It trusts every 10.244.c.d and no 10.245.c.d |
| ClientIpTheorems.WalkPicks | backend/notification-service/internal/delivery/ws/clientip.go:77-86 | The walk picks the right-most entry that is not a trusted proxy's: the entry if it parses, the peer if it does not |
| ClientIpTheorems.ClientContract | backend/notification-service/internal/delivery/ws/clientip.go:62-93 | The peer if it is untrusted or sent no header; else the right-most entry that is no trusted proxy's, the peer if that is malformed, the outermost entry if there is none |
| ClientIpTheorems.NoProxiesNoHeader | backend/notification-service/internal/delivery/ws/clientip.go:10-15 | Without trusted proxies the header is never believed |
| ClientIpTheorems.SplitJoins | backend/notification-service/internal/delivery/ws/clientip.go:77 | Splitting at commas is undone by joining, and no part holds a comma |
| ClientIpTheorems.SplitPrepended | backend/notification-service/internal/delivery/ws/clientip.go:77 | A header put in front of another splits where they were joined |
| ClientIpTheorems.TrimCuts | backend/notification-service/internal/delivery/ws/clientip.go:79 | Trimming cuts white space off both ends and nothing else, and once is enough |
| ClientIpTheorems.HeaderGivesPlainAddresses | backend/notification-service/internal/delivery/ws/clientip.go:78-92 | What is taken from the header is always an address, without white space around it and without commas |
| ClientIpTheorems.PrependingIsIgnored | backend/notification-service/internal/delivery/ws/clientip.go:56-86 | Entries a client prepends never change the result when the header already has an entry that is not a trusted proxy's, malformed ones included |
| ClientIpTheorems.PrependingExactly | backend/notification-service/internal/delivery/ws/clientip.go:56-92 | Behind a trusted peer, and if only then: when every entry is a trusted proxy's, any other address put in front becomes the result |

## Left out

- Publisher.Generation: `gen` is a uint64 in the source and unbounded here, so its wrap-around after 2^64 sessions is not modelled.
- Publisher.DialAMQP: needs at least one attempt, as both callers pass (15 and 2); with none the source would use a nil connection.
- PublisherTheorems.WaitersAreReleased: that a runnable goroutine, a due timer or a running dial eventually proceeds is the scheduler's and the network's; what is proved is that nothing else can hold a call up.
- TokenBucketTheorems.WindowBound: stated over real numbers and a clock that does not go back; float64 rounding, Lua's `tostring` and the window across a backward clock jump are not modelled. One cleanup pass is atomic, as it runs under the limiter's mutex, with a cutoff computed from an earlier clock reading.
- RedisTheorems.RedisWindowBound: counts the verdicts of the script; the requests that are let through without an answer come on top.
- TokenBucket.RedisLimiter.LogErr: one error at a time; that of two concurrent ones only one swaps the timestamp is not modelled.
- SessionTheorems.RunInv: each repository method is one atomic step. Statement-level effects of READ COMMITTED inside Postgres are not modelled; the advisory lock serialises only Create.
- SessionHandler.AuthHandler.Lookup: parsing a JWT enters as the user it names, or nothing. Signing, bcrypt, uuid and access tokens are left out: every signed refresh token is a new one, and SHA-256 is taken to be injective.
- SessionHandler.AuthHandler.RevokeAll: when the revocation itself fails the source logs it and reports the password as changed; database errors are not modelled, here or elsewhere.
- TicketWorkflow.TicketRepository.Create: the id the database would generate is the caller's; title, priority, department and due time play no part. Each repository method is one atomic step.
- TicketWorkflow.TicketUsecase.UpdateStatus: this method and AssignTicket are calls with no other between their read and their write; `TicketWorkflow.System` takes the steps apart.
- PersistConsumer.Consumer.Process: JSON decoding enters as its result, and the database as whether the row was stored and whether the call returned without an error or a panic; it does so only if the row was stored.
- PersistTheorems.Conservation: delivery limits and expiry of broker queues, and consumers of the dead-letter queue, are not modelled.
- ClientIp.TrustedProxies.ClientIP: reading an address from its text, the set of white-space characters and taking the port off the peer are the standard library's and enter as parameters; the header is the first `X-Forwarded-For` line, as `Header.Get` reads it.
- gobreaker, GORM, amqp091, gorilla/websocket, golang-migrate and gin: only the contracts the code states.
- The broadcast consumer, HTTP plumbing, configuration, metrics, logging, Kubernetes files and the Flutter application.
- The other copies of the limiter, comments, attachments, notification lists, report aggregates and `slaDuration`: they would only add easy or repeated members.
