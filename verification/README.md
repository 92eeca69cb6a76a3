# Refresh-token rotation, rate limiting, idempotency and blob storage: a verified model

A Dafny model of the backend's stateful parts, with proofs about every run of them.

| files | what they hold |
|---|---|
| `Jwt.dfy` | tokens, claims, expiry arithmetic, `get_current_user` |
| `Persistence.dfy` | the `refresh_tokens` table, its constraints, the session with its statements |
| `Rotation.dfy` | login, refresh and logout: a plan made by reading, and its application |
| `Ledgers.dfy`, `Serial.dfy` | the abstract ledger of token families, simulation over serial runs, lockout |
| `Interleaved.dfy`, `FamilyOrder.dfy`, `Presentation.dfy` | any number of requests in flight: chain integrity, when a lock holds, sort order, the fate of every token |
| `Overtaking.dfy` | concrete runs in which using an old token does not revoke its family |
| `RateLimit.dfy`, `RateEnvelope.dfy` | the token bucket, its exact admission rule, expiry, denied calls |
| `Idempotency.dfy` | leases, completions and reports under interleaved clients |
| `BlobPaths.dfy`, `BlobStore.dfy` | path validation and the store it protects |
| `HttpRetry.dfy` | the retry loop |

**Rotation.** A family is a chain of refresh tokens. The rows encode it with `replaced_by` and
`revoked_at`, under a partial unique index checked per statement and a self reference checked at
commit. `PlanFor` is what a request does before its first write, `Apply` everything after. The class
`AuthService` runs the statements on a `Session` and is proved to do exactly that. The serial server
applies a plan at once; the interleaved one keeps plans in flight and applies them later, to a table
that may have changed. Neither model assumes that drawn ids are fresh: a colliding id is an integrity
error and a rollback. Clock readings are arbitrary unless a lemma says otherwise.

**Where documentation and code differ, the code is modelled.**

- The decision record (`docs/adr/0002-authentication-jwt-argon2.md:18`) says that reusing an old
  refresh token revokes the family. `Presentation.EveryRefreshEnds` says exactly when a use is
  answered as reuse. The rule does not come about when
  - the old token does not verify, being expired or, on a clock that has gone back more than the leeway,
    not yet issued: it is merely invalid (`Overtaking.ExpiredReuseIsMissed`;
    `Presentation.EveryTokenIsDecided` gives the exact moments);
  - two uses race: both read the row while it is unreplaced, and the one that writes second is an
    integrity error that revokes nothing (`Overtaking.RacingReuseIsMissed`);
  - the report is overtaken: a refresh that read the newest row before the revocation commits after it
    and reopens the family (`Overtaking.ReuseCanBeOvertaken`; `Interleaved.LockHoldsIff` says exactly
    when a revoked family stays so), as it also can after a logout (`Overtaking.LogoutCanBeOvertaken`);
  - the request that found the reuse is abandoned before it writes, which is the event `Abandon`.

  The record also calls refresh tokens opaque; the code issues signed ones. The scheme is that of
  section 4.14.2 of RFC 9700.
- The idempotency port (`app/platform/idempotency/ports.py:18-21`) speaks of exactly-once processing.
  A completion is not tied to the lease it was begun in: sent after its own deadline, it can complete a
  lease won since (`Idempotency.StaleCompletionHappens`). A caller avoids that by comparing the clock
  with the time it was answered `new` plus its `ttl_s` before it completes; that check is sufficient
  (`Idempotency.TimelyLeasesSpeak`, `Idempotency.DoneIsTheWinnersIff`) and no weaker one is
  (`Idempotency.DeadlineGuardIsExact`).
- The rate limiter's port (`app/platform/rate_limit/ports.py:19` and `:34-35`) speaks of a quota per
  sliding window. A token bucket keeps that promise exactly for quotas of at most one
  (`RateEnvelope.SlidingWindowIff`); the bound it does keep is `RateEnvelope.ExactEnvelope`.

**Idealised.** UUIDs are numbers, and a string that is a UUID is its own kind of JSON value. A digest
verifies exactly the value it was made from. A token is its payload and the key that signed it.
Decoding follows section 4.1 of RFC 7519 with the configured leeway; the JWT library is not part of
this model. Times are reals, and the clocks of the signer, the service and Redis are parameters.

## Model

| member | source | states |
|---|---|---|
| Jwt.JwtSigner.Sign | app/auth/adapters/jwt_signer.py:40-62 | Every given claim is kept as given, the five standard claims are always present afterwards, each missing one is filled in from the signer, the clock or the drawn id, and nothing else is added |
| Jwt.VerifyAccepts | app/auth/adapters/jwt_signer.py:64-74 | Any token is accepted, as its payload, exactly if the key, `iat` and `exp` with 30 s leeway, the issuer and the audience (one or a list) are right; absent times are not checked |
| Jwt.VerifyOutcomes | app/auth/adapters/jwt_signer.py:64-82 | Between any two signers, which refusal a token of one gets from the other: bad signature, too early, expired, wrong issuer, wrong audience, in that order |
| Jwt.MalformedIff | app/auth/adapters/jwt_signer.py:81-82 | A token is malformed exactly if it has the key and a time that is no number, unless it is too early first |
| Jwt.DefaultWindow | app/auth/adapters/jwt_signer.py:51-54 | A token signed without times of its own is accepted from 30 s before its signing to 30 s after the signer's lifetime |
| Jwt.IssuedVerifies | app/auth/adapters/jwt_signer.py:64-74 | A token this signer issued is accepted exactly from 30 s before its `iat` to 30 s after its `exp`, the end excluded |
| Jwt.SignersStayApart | app/auth/adapters/jwt_signer.py:46-74 | A signer accepts nothing issued under another key, issuer or audience |
| Jwt.ExpiryChecksCollapse | app/auth/service.py:142-143 | From issue on, the truncated `exp` with leeway and the row check together accept exactly when now <= expires_at |
| Jwt.LifetimesFloor | app/auth/deps.py:80-81 | Flooring to days and minutes never lengthens a lifetime and costs less than a day and less than a minute |
| Jwt.LifetimesAreWhole | app/auth/deps.py:80-81 | The two lifetimes are exactly the whole days and the whole minutes that fit into the configured seconds |
| Jwt.ClaimsRoundTrip | app/auth/deps.py:120-152 | An issued access token passes exactly when its user was enabled and has an email and the window holds, and gives back that user's id, email, tenant and scopes |
| Jwt.AccessWindow | app/auth/service.py:209-229 | An access token is accepted for less than its configured lifetime plus 30 s |
| Jwt.AccessTokenLifetime | app/auth/adapters/jwt_signer.py:38 | From issue on, the access token of an enabled user with an email is accepted exactly until 30 s after the whole second its minutes end in |
| Jwt.AccessRefusals | app/auth/deps.py:104-152 | For any credentials, exactly which refusal is given: the first of no credentials, unverified, wrong type, no `sub`, no email, unparsable, disabled |
| Jwt.AccessSays | app/auth/deps.py:126-152 | Whoever is accepted has the id, email, tenant and scopes that the claims say, and the claims say active |
| Persistence.Session.InsertRefreshToken | app/auth/persistence.py:118-142 | On success exactly this row is added; on failure nothing changes; the primary key fails exactly on a taken id, the unique hash exactly on a hash some row has, the family index exactly when the new row and another of its family would both be unreplaced, the user reference exactly on a missing user, in that order |
| Persistence.Session.MarkRefreshTokenReplaced | app/auth/persistence.py:175-193 | By id only: that row gets both values whatever it held, no other row changes, a missing id is not an error, and it succeeds on every table that meets the family index |
| Persistence.Session.RevokeRefreshToken | app/auth/persistence.py:196-213 | By id only: `revoked_at` of that row is overwritten, no other field and no other row changes, and the updated row is returned if there is one |
| Persistence.Session.RevokeRefreshTokenFamily | app/auth/persistence.py:216-234 | Writes the given time into exactly the unrevoked rows of the family, changes nothing else, and returns how many there were |
| Persistence.Session.GetRefreshTokenFamilyState | app/auth/persistence.py:237-249 | All rows of the family, once each, in non-decreasing order of `issued_at` |
| Persistence.Session.GetUserByEmail | app/auth/persistence.py:111-115 | Finds a user with that email if and only if there is one |
| Persistence.Session.Commit | app/auth/persistence.py:51-55 | Publishes the working table when every `replaced_by` exists, otherwise rolls it back |
| Rotation.AuthService.IssueTokens | app/auth/service.py:199-259 | Signs both tokens, which last the configured minutes and days from now, and adds the one row, unrevoked and unreplaced, that stores the digest and the expiry of the refresh token it returns |
| Rotation.AuthService.Login | app/auth/service.py:82-93 | Committed table and answer are those of the request's plan, applied at once |
| Rotation.AuthService.Refresh | app/auth/service.py:95-169 | The same for refresh, with every early rejection, the reuse branch and the rollbacks |
| Rotation.AuthService.RotateAndCommit | app/auth/service.py:149-169 | The write half of a refresh, with a row and a user read earlier, on whatever the table is now |
| Rotation.AuthService.Logout | app/auth/service.py:171-197 | The same for logout, which ignores tokens it cannot verify and never looks at the hash |
| Rotation.ReadTokenIff | app/auth/service.py:106-113 | A presented token names a row exactly if it verifies, is of type refresh and has a UUID as `jti`; a `jti` that is there and no UUID is reported apart |
| Rotation.ServerErrorIff | app/auth/service.py:113 | That `jti` is the one case in which refresh and logout fail without an answer, and then nothing changes |
| Rotation.RefreshEffects | app/auth/service.py:95-169 | What a refresh leaves in the table: new tokens mean a genuine, unrevoked, unexpired row of an enabled user, replaced and revoked at the time of the write, and one new row from the time of issue; reuse means the family's unrevoked rows stamped with the time of the write; anything else, no change |
| Rotation.LoginEffects | app/auth/service.py:82-93 | What a login leaves in the table: new tokens mean one new row, of the user with that email, from the time of issue; anything else, no change |
| Rotation.LogoutEffects | app/auth/service.py:171-197 | What a logout leaves in the table: the time of the write in the row the token names, if there is one, and no other change |
| Rotation.AccessGrantSays | app/auth/service.py:217-228 | The access token handed out says its user's id, email, tenant and activity, type, scope, and the two times, cut to whole seconds |
| Rotation.AccessGrantIsSigned | app/auth/adapters/jwt_signer.py:46-56 | The access token handed out carries the signer's issuer and audience and an id drawn for it |
| Rotation.RefreshGrantSays | app/auth/service.py:231-239 | The refresh token handed out says exactly its user's id, its row's id, type, the two times, issuer and audience |
| Rotation.LoginOpensIff | app/auth/service.py:84-91 | A login is granted for exactly the enabled user with that email and that password |
| Rotation.TypesStayApart | app/auth/service.py:106-107 | No access token is accepted by refresh or revokes anything in logout; no refresh token is accepted as a user |
| Ledgers.RotateRefines | app/auth/service.py:156-167 | A rotation, however stale its row, commits exactly when the row is still unreplaced and the new id unused, and then appends one token to the family |
| Ledgers.OpenRefines | app/auth/service.py:91-92 | A login commits exactly when both drawn ids are unused, and opens a family of one |
| Ledgers.ReuseRefines | app/auth/service.py:122-136 | The reuse branch always commits and closes the family |
| Ledgers.RevokeRefines | app/auth/service.py:191-197 | A logout always commits, and closes a family exactly when its newest token was presented |
| Ledgers.StaleInsertFails | app/auth/persistence.py:57-66 | Once a token is replaced, the successor a stale reader inserts breaks the index |
| Ledgers.HashesAreFresh | app/auth/persistence.py:47 | The unique hash never stands in the way of an unused token id |
| Ledgers.ConstraintsHold | app/auth/persistence.py:51-66 | Index, self reference and "unrevoked implies unreplaced" hold of every table with a ledger |
| Serial.RunSimulates | app/auth/service.py:82-197 | Over every serial run the rows simulate the ledger machine, answer for answer |
| Serial.LedgerMoves | app/auth/service.py:82-197 | A request changes one family at most: login opens a fresh one, refresh of the newest open token appends one, refresh of an earlier one closes it, logout closes it, and any other answer changes nothing |
| Serial.LockedForGood | app/auth/service.py:138-140 | A closed family gains no row, stays revoked, and none of its tokens is ever refreshed again |
| Serial.ReuseLocksFamily | app/auth/service.py:122-140 | After a reuse-detected answer every row of the family is revoked, and it is locked through every continuation |
| Serial.LogoutLocksFamily | app/auth/service.py:191-197 | Logging out the newest token locks its family in the same way |
| Serial.StatementOrder | app/auth/service.py:153-167 | Marking before inserting meets the index at each statement and the reference at commit, though not in between; inserting first always breaks the index |
| Interleaved.ApplyEvolves | app/auth/persistence.py:175-234 | No write removes a row, un-revokes one or changes a successor, and none leaves its family |
| Interleaved.ChainIntegrity | app/auth/service.py:113-169 | In every interleaving each family's rows form exactly one chain of one user with one unreplaced row, and a committed `replaced_by` never changes |
| Interleaved.ExchangedAtMostOnce | app/auth/service.py:149-169 | Once a rotation of a row has been answered with tokens, every later rotation of it, whenever it was planned, is an integrity error that changes nothing |
| Interleaved.RequestsEndOnce | app/auth/service.py:95-169 | A request that was answered or abandoned gives no further answer and writes nothing further |
| Interleaved.ChainIsUnique | app/auth/persistence.py:57-66 | A family has one chain only |
| Interleaved.UnrevokedIsHead | app/auth/persistence.py:222-234 | An unrevoked row is unreplaced, a family has at most one, and a family-wide revoke counts at most one |
| Interleaved.SerialIsInterleaved | app/auth/service.py:95-169 | Every serial run is an interleaved run, so all of this holds of it too |
| Interleaved.LockHoldsIff | app/auth/persistence.py:182-187 | A revoked family stays revoked through every continuation exactly when no request in flight means to rotate its unreplaced row |
| Overtaking.ClosingIsOvertaken | app/auth/service.py:122-197 | In any state with a ledger in which one request in flight closes a family and another holds its newest row: the first is answered and every row is revoked, and then the second commits an unrevoked row |
| Overtaking.LogoutCanBeOvertaken | app/auth/persistence.py:182-187 | A concrete run from an empty table: a logout is answered and has revoked the family's only row, and then the refresh in flight is issued new tokens |
| Overtaking.ReuseCanBeOvertaken | app/auth/persistence.py:182-187 | A concrete run: a replaced token is answered reuse-detected with its whole family revoked, and then a refresh in flight is issued new tokens in that family |
| Overtaking.ExpiredReuseIsMissed | app/auth/service.py:97-101 | A concrete run: a replaced token presented once it no longer verifies is merely invalid, nothing is revoked, and its successor can still be rotated |
| Overtaking.RaceIsLost | app/auth/persistence.py:57-66 | In any state with a ledger in which two requests hold one family's newest row: the first to finish commits, the other is an integrity error that changes nothing, and the family stays open |
| Overtaking.RacingReuseIsMissed | app/auth/service.py:138-169 | A concrete run to such a state: one token used twice, both uses verifying, and no reuse detected |
| Overtaking.WaitingRevocationRunsFirst | app/auth/persistence.py:222-234 | A family-wide revocation that waits for a rotation of the family's newest row to commit leaves the same table and the same answers as if it had run before that rotation |
| FamilyOrder.SortIsChainOrder | app/auth/persistence.py:237-249 | In every interleaving the family query is certain to return the replacement chain if and only if the requests that added a row to that family did so at increasing issue times |
| Presentation.EveryTokenIsDecided | app/auth/service.py:97-147 | The exact verdict on the genuine token of every row in every reachable state, whatever the signer's and the service's clocks show: invalid unless it verifies, reuse if it is replaced, rotation exactly for an unrevoked head that is not expired and an enabled user |
| Presentation.VerdictOnOneClock | app/auth/service.py:142-143 | On one clock, from issue on, that rule is: reuse while a replaced token's own expiry and the leeway last, rotation exactly for an unrevoked head with now <= expires_at and an enabled user |
| Presentation.TokensNameTheirRows | app/auth/service.py:231-239 | In every reachable state the payload behind a row's digest is exactly the row's user, id and times, type refresh, issuer and audience |
| Presentation.EveryRefreshEnds | app/auth/service.py:97-169 | How every presentation of a genuine token that is not abandoned ends, whatever the clocks show and whatever happens between its reads and its writes: reuse-detected, with every unrevoked row of the family stamped with the time of the write, exactly if it was replaced at the start and verified; an integrity error and an unchanged table exactly if it was planned as a rotation and was replaced in between or drew a taken id; new tokens exactly for the other planned rotations, with the presented row exchanged for one new row and nothing else changed |
| Presentation.EveryLoginEnds | app/auth/service.py:82-93 | How every login that is not abandoned ends: the enabled user with that email and password is given the first row of a new family, an integrity error changes nothing and comes exactly when a drawn id is taken, everybody else is refused |
| Presentation.EveryLogoutEnds | app/auth/service.py:171-197 | How every logout with a genuine token that is not abandoned ends: it is answered, and exactly if the token verified its row, and no other, gets the time of the write |
| Presentation.GrantsWork | app/auth/service.py:209-259 | In every reachable state, whatever a login or refresh hands out works: its refresh token is that of the family's usable row and is rotated from its issue until exactly its expiry while its user is enabled; its access token passes as the user exactly within its window |
| RateLimit.RedisRateLimiter.Allow | app/infrastructure/rate_limit/redis.py:15-85 | The script on one key: refill, clamp, decrement, write back the time of the call and a deadline a whole number of seconds later, the window rounded up; `reset_after_s` is the window; other keys untouched |
| RateLimit.RedisRateLimiter.Expire | app/infrastructure/rate_limit/redis.py:44 | The key goes when its deadline has come, and only then |
| RateLimit.TokensInRange | app/infrastructure/rate_limit/redis.py:31-41 | Tokens stay within [0, quota] whatever the clock does |
| RateLimit.RefillSplits | app/infrastructure/rate_limit/redis.py:31-33 | Clamped refill over two adjacent gaps equals refill over their sum |
| RateLimit.DeniedCallsAreInvisible | app/infrastructure/rate_limit/redis.py:31-43 | Deleting any set of denied calls leaves all other decisions unchanged |
| RateLimit.ExpiryIsTransparent | app/infrastructure/rate_limit/redis.py:27-44 | Dropping the key at any moments from its deadline on leaves every decision as if it were never dropped |
| RateLimit.KeysAreIndependent | app/infrastructure/rate_limit/redis.py:71-77 | In any run over many keys each key gets the decisions of its own events alone |
| RateEnvelope.LevelIsLeast | app/infrastructure/rate_limit/redis.py:31-41 | The tokens found are the least of the quota and what each earlier admission leaves |
| RateEnvelope.ExactEnvelope | app/infrastructure/rate_limit/redis.py:27-41 | A call is admitted if and only if the quota is not zero and, from every earlier admission on, the count through this call fits quota + elapsed * quota / window |
| RateEnvelope.AdmissionsInInterval | app/infrastructure/rate_limit/redis.py:27-41 | That bound holds on every interval of every run |
| RateEnvelope.DecisionsAreHonest | app/infrastructure/rate_limit/redis.py:37-46 | After every call of every run: `remaining` more calls are admitted and, in the same instant, no more; `reset_after_s` is the window, and waiting that long admits the next quota calls |
| RateEnvelope.ResetIsExact | app/infrastructure/rate_limit/redis.py:81-85 | After a whole quota has been used up at once, the next whole quota is admitted at once if and only if the wait was at least `reset_after_s`: no shorter wait is enough |
| RateEnvelope.RunsAgree | app/infrastructure/rate_limit/redis.py:53-85 | The two descriptions of a run, forward and by index, give the same decisions |
| RateEnvelope.SlidingWindowIff | app/platform/rate_limit/ports.py:17-36 | "At most quota in any window" holds exactly for quotas of at most one |
| Idempotency.RedisIdempotencyStore.Begin | app/infrastructure/idempotency/redis.py:16-40 | `new`, and `in_flight` stored under `idem:` and the key for the given time, exactly when the key is absent; otherwise what the key says, and nothing changes; a time that is not positive is an error |
| Idempotency.RedisIdempotencyStore.Complete | app/infrastructure/idempotency/redis.py:42-57 | Rewrites the value of an existing key to `done:` and the hash, keeps its deadline, creates nothing |
| Idempotency.RedisIdempotencyStore.Get | app/infrastructure/idempotency/redis.py:59-78 | In flight exactly for the stored `in_flight`, done with a hash exactly for `done:` and that hash, and nothing otherwise |
| Idempotency.DecodeInvertsEncode | app/infrastructure/idempotency/redis.py:72-78 | Decoding inverts the encoding for every hash, the empty one and `in_flight` included, and accepts nothing else |
| Idempotency.SingleWinnerPerLease | app/infrastructure/idempotency/redis.py:27-40 | In every interleaving two `new` answers for a key are at least the first one's ttl apart |
| Idempotency.LiveKeysAreExplained | app/infrastructure/idempotency/redis.py:27-57 | A live key was won once, has lived since, and holds the last completion of that lease, or `in_flight` if there was none |
| Idempotency.DoneIsSound | app/infrastructure/idempotency/redis.py:42-76 | A `done` answer carries the hash of the last completion in the key's current lease |
| Idempotency.ReportsSay | app/infrastructure/idempotency/redis.py:37-40 | On a live key a report is `in_flight` exactly when its lease has seen no completion and `done` otherwise; on a dead one `get` has nothing and `begin` says `in_flight` |
| Idempotency.PhasesMoveForward | app/infrastructure/idempotency/redis.py:27-57 | Absent, in flight, done, done: only expiry at the unmoved deadline goes back |
| Idempotency.BeginsAnswerOnce | app/infrastructure/idempotency/redis.py:37-40 | The second command of a `begin` is answered once: a client gets no further answer until it begins again |
| Idempotency.BeginMayReportADeadLease | app/infrastructure/idempotency/redis.py:37-40 | A concrete run in which `begin` answers `in_flight` although nobody holds the key |
| Idempotency.LeaseHolds | app/infrastructure/idempotency/redis.py:27-40 | Before its deadline a lease is still the key's, so a completion sent before the deadline of its own win takes effect in that win's lease |
| Idempotency.TimelyLeasesSpeak | app/infrastructure/idempotency/redis.py:42-57 | If each completion in a lease comes before the deadline of the win it completes, all of them complete the win the lease began with |
| Idempotency.DoneIsTheWinnersIff | app/infrastructure/idempotency/redis.py:37-76 | Under that condition a report in the lease answers `done` with a hash if and only if the lease's own win was completed, and last with that hash |
| Idempotency.DeadlineGuardIsExact | app/infrastructure/idempotency/redis.py:42-57 | A completion sent at time t is certain to take effect in its caller's own lease, and certain not to take effect in a later one, if and only if t is before the caller's deadline |
| Idempotency.StaleCompletionHappens | app/infrastructure/idempotency/redis.py:42-57 | A concrete run, for the same client or for two, in which a win whose lease ran out is completed in the next lease, and the key answers with it |
| BlobPaths.AcceptedPaths | app/infrastructure/storage/local.py:17-62 | Accepted exactly when both parts are clean; the path is base, bucket segments, key segments, strictly below base; the containment check never fires |
| BlobPaths.RejectedPaths | app/infrastructure/storage/local.py:17-60 | Exactly which error a rejected pair gets: the bucket's before the key's, and of each the first of empty, NUL, backslash, leading slash, colon, and then the first segment that is `..`, `.` or empty |
| BlobPaths.NormalForm | app/infrastructure/storage/local.py:15 | Resolving is crossing out empty segments, dots, segments with the `..` after them and `..` at the root: no such step changes the result, and the result has none left |
| BlobPaths.SameFileIff | app/infrastructure/storage/local.py:49-51 | Two accepted pairs name one file exactly when bucket/key is the same string |
| BlobPaths.SplitConcat | app/infrastructure/storage/local.py:38 | Splitting "a/b" is splitting a and splitting b |
| BlobPaths.JoinSplit | app/infrastructure/storage/local.py:38 | Joining the segments gives the string back |
| BlobStore.LocalBlobStorage.constructor | app/infrastructure/storage/local.py:14-15 | The base is resolved once, to the normal form of what is given, which has only ordinary segments |
| BlobStore.LocalBlobStorage.Validate | app/infrastructure/storage/local.py:17-62 | Two clean parts give the base followed by their segments; otherwise the error is the first fault of the bucket, or of the key if the bucket is clean |
| BlobStore.LocalBlobStorage.Put | app/infrastructure/storage/local.py:64-80 | One accepted file gets the data, or nothing changes; the reference reports the size |
| BlobStore.LocalBlobStorage.Get | app/infrastructure/storage/local.py:82-86 | The path if the file exists, otherwise not found or the validation error |
| BlobStore.LocalBlobStorage.Stream | app/infrastructure/storage/local.py:88-93 | The chunks add up to the file; none is empty or over 64 KiB, all but the last are exactly that |
| BlobStore.LocalBlobStorage.Delete | app/infrastructure/storage/local.py:95-98 | The file is gone afterwards, whether or not it was there, and no other is |
| BlobStore.StoreSemantics | app/infrastructure/storage/local.py:64-98 | Over every run a file exists exactly when the last operation on its name put it, and holds that data |
| HttpRetry.RequestJson | app/infrastructure/http/client.py:54-94 | Requests are sent with the verb in capitals, never more than the limit; all but the last outcome were transient and the verb repeatable, and the last was not or used up the limit; the answer is the JSON body of a 2xx last response, and nothing else is |
| HttpRetry.SentMoreThanIff | app/infrastructure/http/client.py:56-66 | More than n requests are sent exactly if n is below the cap, the verb is repeatable, and the first n outcomes are a failed connection, a read time-out or a status of at least 500 |
| HttpRetry.RequestCount | app/infrastructure/http/client.py:68-84 | Requests sent are the smaller of the limit and one more than the index of the first outcome that is not transient or whose verb may not be repeated, and the limit if there is none; a limit below one counts as one |
| HttpRetry.CountIsDetermined | app/infrastructure/http/client.py:68-84 | The loop's promise leaves no other count |
| HttpRetry.UpperLetters | app/infrastructure/http/client.py:54 | The verb sent has each of the 26 small letters replaced by its capital and every other character kept |
| HttpRetry.UnsafeVerbsSentOnce | app/infrastructure/http/client.py:54-66 | POST and PATCH, each letter small or capital, are sent in capitals and exactly once without opt-in |
| HttpRetry.ReportsAreUpstreamErrors | app/infrastructure/http/client.py:68-94 | Over every script of outcomes: the JSON body exactly of the 2xx response that ends the call, something that is no `Exception` exactly if such an end is reached, and otherwise the upstream error of the outcome that ends the call: its status, connection, or unexpected |

## Left out

- Registration, profiles, routers, middleware, settings, health and wiring: settled by reading one branch each.
- Argon2, RS256, JWT parsing, SQLAlchemy, asyncpg, the Redis client and the network: idealised as above.
- Row locks: in the interleaved server the update, the insert and the commit of one request are one step. Requests that update the same row wait for its lock, so the one that waits acts as the later step; a family-wide revocation that waits for a rotation acts as the earlier one (`Overtaking.WaitingRevocationRunsFirst`).
- Deletion of users and of tokens: the code has none, so `ON DELETE` actions never run.
- Claim values of kinds the service never issues: a non-string email, for one, is an error here.
- RateLimit.RedisRateLimiter.Allow: takes a non-negative quota and a positive window, which the script does not check; floating-point rounding is not modelled.
- HttpRetry.UnsafeVerbsSentOnce: letter case is that of ASCII letters.
- Idempotency.BeginMayReportADeadLease: `begin` is not linearizable, so no lemma says it is.
- Blob store: symbolic links, a file where a directory is needed, operating-system errors, presigned addresses, and a file that changes while it is streamed.
- HTTP client: back-off times, jitter, time-outs of the client and request bodies.
