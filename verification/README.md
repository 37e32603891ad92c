# Models of a Go authentication service

This project models the parts of a Go REST service whose correctness depends on order, time and
concurrency, and proves what they promise over every run:

- the **session and credential protocol**: Login, Refresh, Logout, SendOTP, VerifyOTP, ForgotPassword,
  ResetPassword, ChangePassword and the access-token middleware, over a key-value store with
  deadlines, a users table and a clock;
- the **user cache** in front of the users table;
- the **per-IP rate limiter** with its sweep of idle visitors;
- the **asynchronous mailer** with its bounded queue, worker pool, retries and draining shutdown;
- the **migration runner** and the **one-time-code generator**.

## How the modules fit

`Base`, `KeyValue`, `Keys`, `Accounts`, `Tokens` and `Decimal` hold the vocabulary. Time is an integer
number of microseconds, the resolution of a Postgres timestamp. A JWT is its signed claims, with `iat`
and `exp` floored to the second (sections 4.1.4 and 4.1.6 of RFC 7519). A bcrypt digest remembers what
it verifies. Fresh identifiers, salts and codes are parameters.

`AuthSpec` gives each use case as a function from state to state and outcome; a *trace* is any
time-ordered sequence of use cases with the outcomes these functions give, starting from an empty
deployment. `SessionChains`, `OtpAttempts`, `AttemptWindows`, `ResetTokens` and `Revocation` are about
all traces. `AccountHistory`, `TokenLifetimes`, `CodeLifetimes` and `ResetLifetimes` say, for every trace and from
its events alone, exactly who can register, log in, change or reset a password, and exactly when a refresh token, an
access token, a one-time code or a reset token works. `AuthService` holds the use cases as they run: classes whose methods make one external
call after another, each of which may fail. Without faults a method has exactly the effect of its
`AuthSpec` function; the clauses about faults are stated beside that.

`RefreshInterleaving`, `OtpInterleaving`, `CacheStaleness`, `StaleRefresh`, `Mailer` and `MigrationLock` drop
atomicity: single commands of concurrent callers interleave arbitrarily, and the theorems are about every state of
every interleaving. `Lockouts` follows one attempt counter under arbitrary faults.

Where the code meets a promise only under a condition, the condition is proved exact:

- one issued code is compared at most `OTPMaxAttempts` times iff codes expire and no later than their
  attempt counters (`OtpAttempts.ComparisonsBoundedIff`; the server gives both the same lifetime);
- with interleaved commands one code can be compared up to 3·`OTPMaxAttempts` − 1 times even with one SendOTP and
  nobody in flight (`OtpInterleaving.InterleavedComparisons`, `OtpInterleaving.InterleavedBoundReached`);
- a lockout ends with its window iff the attempt that opened it was confirmed and its EXPIRE, whose failure the
  code ignores, was not lost; otherwise it lasts forever (`Lockouts.LockoutEndsIff`, `Lockouts.NeverAdmittedAgain`);
- an access token older than a password change is refused in every run iff access tokens live at most 24
  hours (`Revocation.AccessLifetimeSafeIff`, `Revocation.ReadmittedIff`). The comment at
  `internal/business/usecases/auth/auth.impl.go:46-51` takes this for granted; the configuration
  accepts up to 720 hours;
- eviction in the rate limiter is invisible iff five idle minutes refill a bucket
  (`RateLimit.EvictionInvisibleIff`);
- every retry delay is the intended one iff the largest exact product fits 64 bits
  (`Backoff.WaitsIdealIff`); the configuration puts no upper limit on retries;
- Down followed by Up reapplies every file iff each up file has a down file of its own stem
  (`Migration.DownThenUpReappliesIff`). The shipped migrations 1 and 2 have none
  (`MigrationOrder.ShippedMigrationsStayRecorded`);
- Down visits the reverse of Up's order iff the suffixes sort the same way behind every stem that starts
  another (`MigrationOrder.DownReversesUpIff`); only a stem that is another followed by a dot can fail;
- a write leaves the user cache coherent iff the row's own key is evicted or was not cached
  (`Users.CoherentAfterWriteIff`). A failed read-back in Activate is the case that breaks it, and then exactly
  that account's lookups are wrong, exactly while its old entry lasts (`Users.ActivateReadBackFailureAnswers`);
- with interleaved steps, the eviction after a commit makes all later answers current iff no open load
  holds an older row (`CacheStaleness.EvictionSufficesIff`);
- a refresh token older than a password change is refused at once when use cases are atomic
  (`Revocation.RefreshRefusedForever`). Since Refresh reads the user through the cache, it may pass for up to five
  minutes and one load otherwise, and not later if changes commit in the order of their instants
  (`StaleRefresh.LateRefreshRefuses`, `StaleRefresh.StaleRefreshPasses`, `StaleRefresh.CommitOrderIff`);
- a refresh token is exchanged at most once when use cases are atomic and without faults
  (`SessionChains.OneLivePerChain`). With interleaved and failing commands a second exchange can follow iff
  another call is past its liveness check, or every deletion so far was lost and the token has not expired
  (`RefreshInterleaving.SecondExchangeIff`); both forks are runs from an empty deployment
  (`RefreshInterleaving.OverlapForks`, `RefreshInterleaving.LostDeleteForks`).

## Model

| member | source | states |
|---|---|---|
| `Base.FloorSecond` | pkg/jwt/jwt.go:131-174 | a token timestamp is the start of the second that contains the instant |
| `KeyValue.SetThenGet` | internal/datasources/caches/cache.redis.go:82-106 | a written value is read back until its lifetime ends and not after, and no other key notices |
| `KeyValue.DelThenGet` | internal/datasources/caches/cache.redis.go:108-112 | a removed key is unreadable ever after, and no other key notices |
| `KeyValue.ExpireThenLive` | internal/datasources/caches/cache.redis.go:120-124 | after EXPIRE a key is live iff it was live before and the new lifetime lasts |
| `KeyValue.IncrRunCounts` | internal/datasources/caches/cache.redis.go:114-118 | however many INCRs a live counter gets, each counts once and none moves its deadline |
| `KeyValue.CounterWindow` | internal/datasources/caches/cache.redis.go:114-124 | INCR and EXPIRE open a window; within it the n-th INCR answers n, and the first one after it answers 1 |
| `Keys.DecodeEncode` | internal/business/usecases/auth/auth.redis_keys.go:9-65 | for all suffix strings, every key string decodes to the family and suffix it was built from |
| `Keys.EncodeDecode` | internal/business/usecases/auth/auth.redis_keys.go:9-65 | only strings that a constructor builds decode, and decoding then encoding restores them |
| `Keys.EncodeInjective` | internal/business/usecases/auth/auth.redis_keys.go:9-65 | the eight families are injective and pairwise disjoint |
| `Keys.ApplyRepresents` | internal/datasources/caches/cache.redis.go:82-124 | each command on the shared string namespace mirrors the same command on separate families, with the same reply |
| `Keys.NamespaceRefinement` | internal/business/usecases/auth/auth.redis_keys.go:9-65 | no timed sequence of commands can tell one string namespace from eight separate maps |
| `Accounts.NormalizeEmailIdempotent` | internal/business/domain/domain.users.go:101-106 | normalizing twice is normalizing once, so a stored address is its own lookup key |
| `Accounts.SpellingsMeet` | internal/business/domain/domain.users.go:101-106 | spellings of an address that differ in case and surrounding space alone normalize to one address |
| `Accounts.TrimPadded` | internal/business/domain/domain.users.go:101-106 | surrounding space is removed and nothing else |
| `Accounts.FindByEmail` | internal/datasources/repositories/postgres/users/users.get_by_email.go:14-44 | answers a row of that address, or that there is none |
| `Accounts.FindByEmailUnique` | internal/datasources/repositories/postgres/users/users.get_by_email.go:14-44 | under the unique index the address determines the row that is found |
| `Accounts.WritesKeepRowsOk` | internal/datasources/repositories/postgres/users/users.update_password.go:20-22 | password and activation updates keep every row, its identity, its address and uniqueness |
| `Accounts.WritesMeet` | internal/datasources/repositories/postgres/users/users.change_active_user.go:20-20 | a password write and an activation keep each other's columns in either order: the account is then active with the new password and the rest is as it was |
| `Users.CacheKeyInjective` | internal/business/usecases/users/users.get_by_email.go:49-49 | two addresses never share a cache key |
| `Users.CoherentAfterWriteIff` | internal/business/usecases/users/users.activate.go:59-64 | after a row write the cache is coherent iff the row's own key was evicted or not cached |
| `Users.ReadThroughRefines` | internal/business/usecases/users/users.get_by_email.go:49-92 | a read through a coherent cache answers what the table holds and fills the cache coherently |
| `Users.InsertRefines` | internal/business/usecases/users/users.store.go:57-96 | an insert needs no eviction, because misses are never cached |
| `Users.UpdateRefines` | internal/business/usecases/users/users.update_password.go:59-81 | a row write with its key evicted keeps the cache coherent |
| `Users.StepRefines` | internal/business/usecases/users/users.update_password.go:48-83 | each request keeps coherence and answers what the table alone would, or an error if its read failed |
| `Users.ActivateReadBackFailureAnswers` | internal/business/usecases/users/users.activate.go:59-64 | what callers then see: every lookup at every later instant answers the table's row, except that account's own while its old entry is unexpired |
| `Users.CacheRefinesTable` | internal/business/usecases/users/users.get_by_email.go:49-92 | in every run, under any expiry and spontaneous eviction, the cached system gives the answers of the table read directly |
| `Users.UsersUsecase.constructor` | internal/business/usecases/users/users.impl.go:37-46 | the initial table and cache are coherent |
| `Users.UsersUsecase.SelectByEmail` | internal/datasources/repositories/postgres/users/users.get_by_email.go:14-44 | finds the row of the address |
| `Users.UsersUsecase.GetByEmail` | internal/business/usecases/users/users.get_by_email.go:49-92 | answers the table's own row, fills the cache on a found miss only, keeps coherence |
| `Users.UsersUsecase.GetByID` | internal/business/usecases/users/users.get_by_id.go:15-61 | finds a row iff the read works and the identifier has one; under the unique index it is the row that its own address finds |
| `Users.UsersUsecase.Activate` | internal/business/usecases/users/users.activate.go:45-66 | writes the active flag, evicts the key read back, keeps coherence unless that read fails |
| `Users.UsersUsecase.UpdatePassword` | internal/business/usecases/users/users.update_password.go:48-83 | writes the password columns, evicts the address, keeps coherence when that address is the row's own |
| `Users.UsersUsecase.Store` | internal/business/usecases/users/users.store.go:57-96 | inserts a validated, normalized, unclashing user, leaves the cache alone and coherent |
| `Tokens.KindsAreExclusive` | pkg/jwt/jwt.go:191-213 | a token accepted as access token is never accepted as refresh token, at any time |
| `Decimal.ParseFormat` | internal/business/usecases/auth/auth.impl.go:57-68 | the cutoff written in decimal is read back as the same number |
| `AuthSpec.SetThenExpire` | internal/business/usecases/auth/auth.impl.go:74-85 | SET and then EXPIRE leave the key with the second lifetime alone |
| `AuthSpec.RowsWritten` | internal/datasources/repositories/postgres/users/users.change_active_user.go:20-20 | each use case leaves the table alone, writes one password, activates one account, or registers one |
| `AuthSpec.RowsEvolve` | internal/datasources/repositories/postgres/users/users.update_password.go:20-22 | no use case removes a row or changes its identity or address |
| `AuthSpec.TraceRowsOk` | internal/business/usecases/users/users.store.go:57-96 | every run keeps identifiers and addresses unique |
| `AuthSpec.StepFrame` | internal/business/usecases/auth/auth.redis_keys.go:9-65 | each use case changes only keys of its own families and its own address or user |
| `AccountHistory.RegisterStep` | internal/business/usecases/users/users.store.go:57-96 | a registration answered Done adds exactly one inactive row as registered; any other adds none |
| `AccountHistory.ReplaceStep` | internal/business/domain/domain.users.go:131-150 | a change or reset answered Done leaves exactly the new password valid and touches nothing else; any other answer changes nothing |
| `AccountHistory.KeepStep` | internal/business/usecases/auth/auth.verify_otp.go:125-161 | every other use case keeps every row, but that the right code activates the account of its address |
| `AccountHistory.RowsAreRegistered` | internal/business/domain/domain.users.go:68-99 | in every run the table holds exactly the registered accounts, under their registered address, name and role |
| `AccountHistory.PasswordIsLatest` | internal/business/domain/domain.users.go:118-150 | in every run exactly the password an account was given last, by registration, change or reset, verifies |
| `AccountHistory.ActiveIffVerified` | internal/business/usecases/auth/auth.verify_otp.go:125-161 | in every run an account is active iff the right code was submitted for its address |
| `AccountHistory.LoginGrantedIff` | internal/business/usecases/auth/auth.login.go:91-172 | in every run an admitted login is granted iff the address was registered and verified and the password is the one its account was given last |
| `AccountHistory.RegisterDoneIff` | internal/business/usecases/users/users.store.go:57-96 | in every run a registration succeeds iff its fields are there, its password can be hashed and neither address nor user name, but for case, was registered before |
| `AuthService.AuthUsecase.CountOne` | internal/business/usecases/auth/auth.verify_otp.go:79-92 | counts one attempt, exactly, under any faults; without faults the first opens the window and later ones leave its deadline |
| `AuthService.AuthUsecase.CheckAttempts` | internal/business/usecases/auth/auth.login.go:57-89 | admits while the learnt count is within the limit, exactly, under any faults; a limit of zero switches the guard off |
| `AuthService.AuthUsecase.RememberRefresh` | internal/business/usecases/auth/auth.impl.go:74-85 | stores the identifier until its token expires, refuses an expired one, writes no other key |
| `AuthService.AuthUsecase.RecordTokenCutoff` | internal/business/usecases/auth/auth.impl.go:46-68 | publishes the second of the change for 24 hours, writes no other key |
| `AuthService.AuthUsecase.FindUser` | internal/business/usecases/users/users.get_by_email.go:49-92 | a lookup finds exactly the table's row for the normalized address, cached or not |
| `AuthService.AuthUsecase.Login` | internal/business/usecases/auth/auth.login.go:57-172 | without faults the protocol step; under any faults grants only the active account of that address with its password, the pair is that user's, the store holds the identifier of the refresh token handed out until its expiry, and nothing but the counter and that session is written |
| `AuthService.AuthUsecase.OpenSession` | internal/business/usecases/auth/auth.login.go:107-172 | the credential check behind the guard; success stores the identifier of the token handed out and clears the counter |
| `AuthService.AuthUsecase.Refresh` | internal/business/usecases/auth/auth.refresh.go:49-159 | without faults the protocol step; under any faults a refusal leaves every existing session as it was, and a grant is for the active, unsuperseded account of the token's address, whose token was live, with the successor stored |
| `AuthService.AuthUsecase.Rotate` | internal/business/usecases/auth/auth.refresh.go:122-159 | the new identifier is stored before the old one is removed, and a failure removes nothing |
| `AuthService.AuthUsecase.Logout` | internal/business/usecases/auth/auth.logout.go:46-70 | success is reported only once the identifier is gone; no other key changes |
| `AuthService.AuthUsecase.SendOTP` | internal/business/usecases/auth/auth.send_otp.go:48-120 | replaces the code and clears its counter once the mail was accepted; a rejection changes no key |
| `AuthService.AuthUsecase.VerifyOTP` | internal/business/usecases/auth/auth.verify_otp.go:51-163 | without faults the protocol step; under any faults only the inactive account of that address is activated, and only by its live stored code |
| `AuthService.AuthUsecase.CheckCode` | internal/business/usecases/auth/auth.verify_otp.go:79-163 | count, compare, activate, clear, in that order; the table changes at most by activating the given account |
| `AuthService.AuthUsecase.ForgotPassword` | internal/business/usecases/auth/auth.forgot_password.go:53-179 | without faults the protocol step; under any faults writes only that address's counter, the new token, and that account's index with the token it named |
| `AuthService.AuthUsecase.WriteDecoy` | internal/business/usecases/auth/auth.forgot_password.go:104-114 | an unknown address leaves nothing behind |
| `AuthService.AuthUsecase.SetFor` | internal/business/usecases/auth/auth.forgot_password.go:135-164 | a value with its own lifetime, whatever expiry SET applies |
| `AuthService.AuthUsecase.IssueResetToken` | internal/business/usecases/auth/auth.forgot_password.go:128-179 | replaces the user's outstanding token in both directions of the index, and under any faults touches no other user's token |
| `AuthService.AuthUsecase.InvalidatePrior` | internal/business/usecases/auth/auth.forgot_password.go:125-130 | removes exactly the token that the user's index names |
| `AuthService.AuthUsecase.ResetPassword` | internal/business/usecases/auth/auth.reset_password.go:49-137 | without faults the protocol step; under any faults a password changes only for the user named by the presented live token, and then exactly the new one verifies |
| `AuthService.AuthUsecase.ChangePassword` | internal/business/usecases/auth/auth.change_password.go:52-122 | without faults the protocol step; under any faults the table changes only by the new password of that user, for a caller who knows the current one, and then exactly the new one verifies |
| `AuthService.AuthUsecase.Handle` | internal/http/middlewares/middleware.auth.go:73-125 | the cutoff and privilege decision; a store error can only admit a token that still parses |
| `SessionChains.RootsAreLogins` | internal/business/usecases/auth/auth.login.go:135-160 | every chain of refresh tokens begins at a login that succeeded |
| `SessionChains.TraceChains` | internal/business/usecases/auth/auth.refresh.go:49-158 | in every run stored identifiers belong to chains, no chain stores two, and an exchanged one is not stored |
| `SessionChains.OneLivePerChain` | internal/business/usecases/auth/auth.refresh.go:49-158 | in every run each identifier is exchanged at most once and each chain has at most one live identifier |
| `SessionChains.RotationConserves` | internal/business/usecases/auth/auth.refresh.go:136-151 | a rotation swaps exactly the presented identifier for the new one of the same chain, keeping the number of live ones |
| `SessionChains.SessionStep` | internal/business/usecases/auth/auth.refresh.go:136-151 | what each use case does to the stored identifiers: a login adds one, a refresh swaps one, a logout removes one, any other none |
| `TokenLifetimes.KeyHeld` | internal/business/usecases/auth/auth.impl.go:74-85 | in every run the identifier of a granted session is stored with its token's exact expiry iff it was neither exchanged nor logged out |
| `TokenLifetimes.RefreshWorksIff` | internal/business/usecases/auth/auth.refresh.go:49-159 | in every run, at every instant, the refresh token of a granted session is exchanged iff it has not expired, was neither exchanged nor logged out, and its user's password was not changed since the second of the grant began |
| `TokenLifetimes.AccessWorksIff` | internal/http/middlewares/middleware.auth.go:73-125 | in every run, at every instant, the access token of a granted session passes iff it has not expired, no change of the password in a later second is less than a day old, and for an administrator's route its user was registered as one; only the last is Forbidden |
| `TokenLifetimes.LogoutDoneIff` | internal/business/usecases/auth/auth.logout.go:46-58 | Logout accepts exactly the unexpired refresh tokens |
| `TokenLifetimes.LogoutEndsSession` | internal/business/usecases/auth/auth.logout.go:46-70 | in every run a logged-out session is refused after every continuation |
| `OtpAttempts.TraceOtp` | internal/business/usecases/auth/auth.verify_otp.go:79-161 | in every run a live code's counter counts every comparison and expires no earlier than the code |
| `OtpAttempts.ComparisonsBounded` | internal/business/usecases/auth/auth.verify_otp.go:79-136 | each issued code is compared with at most OTPMaxAttempts submissions over its whole life |
| `OtpAttempts.ComparisonsBoundedIff` | internal/business/usecases/auth/auth.send_otp.go:104-118 | that bound holds in every run iff codes expire, and no later than their counters |
| `CodeLifetimes.CodeWorksIff` | internal/business/usecases/auth/auth.verify_otp.go:79-161 | in every run, at every later instant, a submission activates iff it is the code sent last, not yet used or expired, with fewer than the limit submitted before it; then neither code nor counter is left |
| `CodeLifetimes.ActivatedByPending` | internal/business/usecases/auth/auth.send_otp.go:104-118 | in every run only a code that was sent, not replaced and not used activates |
| `OtpInterleaving.RunKeepsInv` | internal/business/usecases/auth/auth.verify_otp.go:79-161 | in every interleaving of single commands the counter in place accounts for the admissions since the code was stored |
| `OtpInterleaving.InterleavedComparisons` | internal/business/usecases/auth/auth.send_otp.go:104-118 | in every interleaving a code is compared at most once per call in flight when it was stored, plus OTPMaxAttempts per counter window since: one, one more per DEL, and one more less one if an older counter ran out under it |
| `OtpInterleaving.InterleavedBoundReached` | internal/business/usecases/auth/auth.send_otp.go:104-118 | a run from an empty store with one SendOTP and nobody in flight in which one code is compared 3·max − 1 times, which is that bound |
| `AttemptWindows.TraceWindow` | internal/business/usecases/auth/auth.login.go:57-89 | in every run the counter accounts for the admissions of its own window and at most one earlier window matters |
| `AttemptWindows.AdmissionsBounded` | internal/business/usecases/auth/auth.forgot_password.go:53-81 | any half-open interval of one window length without a successful login admits at most 2·max − 1 attempts; for ForgotPassword without exception |
| `AttemptWindows.BoundReached` | internal/business/usecases/auth/auth.login.go:57-89 | some run admits exactly 2·max − 1 in one such interval, so the bound is sharp |
| `AttemptWindows.WindowOpener` | internal/business/usecases/auth/auth.login.go:73-75 | every stored window ends one length after the admitted attempt that opened it, however many were rejected since |
| `AttemptWindows.LockoutEnds` | internal/business/usecases/auth/auth.login.go:76-89 | a rejected attempt lies within one window length of an earlier admitted one |
| `Lockouts.WindowOf` | internal/business/usecases/auth/auth.login.go:61-75 | under any faults every counter was opened by one attempt, and ends one length after it iff its INCR was confirmed and its EXPIRE took effect; otherwise never |
| `Lockouts.LockedForeverIff` | internal/business/usecases/auth/auth.login.go:61-89 | every later attempt whose count is learnt is refused, whatever attempts and faults come between, iff the counter is at the limit without a deadline |
| `Lockouts.LockoutEndsIff` | internal/business/usecases/auth/auth.login.go:61-89 | in every run under any faults a lockout ends by the start of its window plus its length iff the opening attempt's INCR was confirmed and its EXPIRE not lost; otherwise it never ends |
| `Lockouts.LostExpireLocksForever` | internal/business/usecases/auth/auth.login.go:73-75 | one lost EXPIRE followed by the rest of the limit locks the address out for good |
| `Lockouts.NeverAdmittedAgain` | internal/business/usecases/auth/auth.login.go:76-89 | from such a state no continuation of any use cases, without a further fault, ever admits the address again, for Login and for ForgotPassword |
| `ResetTokens.TraceIndex` | internal/business/usecases/auth/auth.forgot_password.go:128-164 | in every run the reverse index names every live token and expires no earlier |
| `ResetTokens.SingleLiveToken` | internal/business/usecases/auth/auth.forgot_password.go:125-130 | each user has at most one live reset token, and the live index names it |
| `ResetTokens.ResetsBounded` | internal/business/usecases/auth/auth.reset_password.go:72-137 | a token drawn once yields at most one successful reset |
| `ResetTokens.StoredTokenRequested` | internal/business/usecases/auth/auth.forgot_password.go:132-144 | every stored token was drawn by a request for the address of the account it opens |
| `ResetTokens.ResetOpensRequester` | internal/business/usecases/auth/auth.reset_password.go:72-137 | a reset changes no account but the one whose address asked for that token |
| `ResetLifetimes.TokenOpensIff` | internal/business/usecases/auth/auth.forgot_password.go:125-164 | in every run, at every later instant, a requested token opens its account iff it has not expired, no later request for the account was let through and it was not used; otherwise it opens none |
| `ResetLifetimes.ResetWorksIff` | internal/business/usecases/auth/auth.reset_password.go:49-137 | in every run a reset is answered Done iff that token still opens its account and the new password can be hashed |
| `ResetLifetimes.ResetReplaces` | internal/business/usecases/auth/auth.reset_password.go:95-125 | a reset leaves exactly the new password valid for the account that the token opens, and touches no other |
| `ResetLifetimes.ResetLeavesNothing` | internal/business/usecases/auth/auth.reset_password.go:125-136 | a reset leaves neither the token nor the index of its account |
| `ResetLifetimes.ChangeDoneIff` | internal/business/usecases/auth/auth.change_password.go:52-122 | in every run a change is answered Done iff the account is registered and the caller gives its latest password and a new one that can be hashed |
| `Revocation.PasswordStep` | internal/business/usecases/auth/auth.change_password.go:90-120 | a password write stamps one row and publishes the matching cutoff, and touches no other user |
| `Revocation.TraceCutoff` | internal/business/usecases/auth/auth.impl.go:51-68 | in every run the published cutoff is the second of the user's last change, until a day later, and nobody else has one |
| `Revocation.ChangeSticks` | internal/business/domain/domain.users.go:131-158 | a user's last change instant never moves back and never disappears |
| `Revocation.GrantedUser` | internal/business/usecases/auth/auth.login.go:135-171 | a granted pair has the drawn identifiers, the role's rights, floored instants and configured lifetimes of a user of the table whose address stays the same ever after |
| `Revocation.GrantStep` | pkg/jwt/jwt.go:107-174 | only Login and Refresh grant, only to an active user, and each token carries its own identifier, kind and rights |
| `Revocation.RefreshRefusedForever` | internal/business/usecases/auth/auth.refresh.go:106-120 | a refresh token minted before a password change is refused after every continuation, at every instant |
| `Revocation.CutoffsCompare` | internal/http/middlewares/middleware.auth.go:92-107 | exactly when each of the two checks refuses, that a middleware refusal implies a refresh refusal, and exactly when they differ |
| `Revocation.AccessRefusedForever` | internal/http/middlewares/middleware.auth.go:73-107 | with lifetimes of at most 24 hours an access token issued in a second before a change is refused ever after, across any further changes |
| `Revocation.LaterTokensUnaffected` | internal/http/middlewares/middleware.auth.go:86-107 | a token issued at or after its user's latest change is never refused by the cutoff |
| `Revocation.ReadmittedIff` | internal/business/usecases/auth/auth.impl.go:46-68 | after any run an outdated access token is admitted again from then on iff it outlives both the marker of the latest change and the end of the run |
| `Revocation.ChangedRun` | internal/business/usecases/auth/auth.change_password.go:90-120 | a run in which an account is registered, activated, logs in and then changes its password exists for every configuration that can log in |
| `Revocation.AccessLifetimeSafeIff` | internal/config/config.go:102-104 | every outdated access token of every run is refused at every instant iff access tokens live at most 24 hours; beyond that a run with a readmitted token is constructed |
| `RefreshInterleaving.RunKeepsInv` | internal/business/usecases/auth/auth.refresh.go:62-151 | in every interleaving a token that is out has its key untouched or deleted, and nobody can write it again |
| `RefreshInterleaving.DeletedIff` | internal/business/usecases/auth/auth.refresh.go:151-151 | an identifier counts as deleted iff some DEL of it was not lost |
| `RefreshInterleaving.CheckPassesIff` | internal/business/usecases/auth/auth.refresh.go:62-75 | in every interleaving, under any faults, a liveness check passes iff the store answers, the lifetime has not ended and every earlier DEL of the token was lost |
| `RefreshInterleaving.DeletedNeverLiveAgain` | internal/business/usecases/auth/auth.refresh.go:62-75 | under any faults and interleaving, once an identifier's deletion took effect every later liveness check for it is refused |
| `RefreshInterleaving.RefusedNeverRevokes` | internal/business/usecases/auth/auth.refresh.go:136-151 | a Refresh that returned an error exchanged nothing and never issued the deletion of the token it was given |
| `RefreshInterleaving.OnlyDelRemoves` | internal/business/usecases/auth/auth.impl.go:74-85 | the entry of a token that is out changes only by a deletion of it |
| `RefreshInterleaving.ExchangeableIff` | internal/business/usecases/auth/auth.refresh.go:62-151 | from every state a token that is out can be exchanged in some continuation iff its key is live or a call has passed its check and not returned |
| `RefreshInterleaving.SecondExchangeIff` | internal/business/usecases/auth/auth.refresh.go:62-151 | once a call has exchanged a token, another exchange can follow iff another call is past its check of it, or every DEL of it so far was lost and its lifetime has not ended |
| `RefreshInterleaving.ExchangedTwice` | internal/business/usecases/auth/auth.refresh.go:62-151 | two calls exchange one token only if each passed its check before the other's DEL, or that DEL was lost |
| `RefreshInterleaving.OverlapForks` | internal/business/usecases/auth/auth.refresh.go:62-151 | a run from an empty deployment without any fault in which two overlapping calls exchange one token and leave two live successors |
| `RefreshInterleaving.LostDeleteForks` | internal/business/usecases/auth/auth.refresh.go:139-151 | a run from an empty deployment without any overlap in which a lost DEL lets the next call exchange the token again |
| `CacheStaleness.RunKeepsInv` | internal/business/usecases/users/users.get_by_email.go:69-77 | in every interleaving every cached row and every loaded row was the true row when it was read |
| `CacheStaleness.AnswersAreRecentTruth` | internal/datasources/caches/cache.ristretto.go:14-14 | every answer was the true row, or true absence, less than five minutes plus one load ago |
| `CacheStaleness.ActiveNeverReverts` | internal/datasources/repositories/postgres/users/users.change_active_user.go:20-20 | whatever stale values writers carry, an active account stays active and no row or address changes |
| `CacheStaleness.AnswersCurrentIff` | internal/business/usecases/users/users.get_by_email.go:49-92 | from any state every answer for an address until the next commit is the table's row iff neither an unexpired entry nor an open load holds another one |
| `CacheStaleness.EvictionSufficesIff` | internal/business/usecases/users/users.activate.go:59-64 | the eviction after a commit makes every later answer current iff no open load holds another row than the table, whether or not it has already written the cache |
| `CacheStaleness.StaleFillIsPossible` | internal/business/usecases/users/users.get_by_email.go:69-77 | over any table with an inactive account, a run from an empty cache in which a load that spans the activation and its eviction leaves the old row to be answered |
| `StaleRefresh.WriteSucceeds` | internal/datasources/repositories/postgres/users/users.update_password.go:20-22 | a write keeps rows and addresses, and moves no change instant back if it carries no earlier one |
| `StaleRefresh.RunHistoryOk` | internal/business/usecases/users/users.update_password.go:59-81 | when changes commit in the order of their instants, so do the versions of the table in every interleaving |
| `StaleRefresh.LateAnswerKnowsChange` | internal/business/usecases/auth/auth.refresh.go:77-92 | in every interleaving, an answer given five minutes and one load after a change committed carries that change instant or a later one |
| `StaleRefresh.LateRefreshRefuses` | internal/business/usecases/auth/auth.refresh.go:106-120 | so from then on Refresh refuses every token issued before the change |
| `StaleRefresh.StaleRefreshPasses` | internal/business/usecases/auth/auth.refresh.go:77-120 | over any table, a run from an empty cache in which a load that spans the change lets the older token pass before that |
| `StaleRefresh.CommitOrderIff` | internal/business/domain/domain.users.go:131-150 | of two stamped changes the one that commits second keeps refusing what the first refused iff it carries no earlier instant |
| `RateLimit.ServeTokens` | internal/http/middlewares/middleware.ratelimit.go:88-108 | a request is admitted iff a token is there and takes exactly one; a denial costs nothing; other addresses are untouched |
| `RateLimit.SweepTokens` | internal/http/middlewares/middleware.ratelimit.go:54-72 | forgetting a visitor idle past the limit changes nobody's tokens, if that time refills a bucket |
| `RateLimit.EvictionInvisible` | internal/http/middlewares/middleware.ratelimit.go:38-72 | then every timed sequence of requests and sweeps gets the answers of a limiter that never evicts |
| `RateLimit.EvictionInvisibleIff` | internal/http/middlewares/middleware.ratelimit.go:38-72 | for every rate and burst, eviction is invisible in every run iff five minutes refill a whole bucket |
| `RateLimit.AdmissionBound` | internal/http/middlewares/middleware.ratelimit.go:88-108 | an address is admitted at most burst + rate·(t − s) times in any interval [s, t] |
| `RateLimit.RetryAfterExact` | internal/http/middlewares/middleware.ratelimit.go:130-143 | after a denial, waiting k whole seconds admits iff k is at least Retry-After (section 7.1.3 of RFC 7231) |
| `RateLimit.RetryHelpsIff` | internal/http/middlewares/middleware.ratelimit.go:130-143 | a denied caller can ever be admitted by waiting iff the rate is positive and the burst at least one |
| `RateLimit.HeadersExact` | internal/http/middlewares/middleware.ratelimit.go:110-128 | the advertised reset is the first whole second with a full bucket, and Remaining is positive iff the request is admitted |
| `RateLimit.RemainingExact` | internal/http/middlewares/middleware.ratelimit.go:110-117 | the advertised remainder is how many requests the address could make at once: of any n, exactly that many pass |
| `RateLimit.RateLimiter.GetLimiter` | internal/http/middlewares/middleware.ratelimit.go:38-51 | answers the visitor's bucket, a full one for a new visitor, and marks it seen |
| `RateLimit.RateLimiter.Handle` | internal/http/middlewares/middleware.ratelimit.go:88-128 | admission, visitors and headers of one request, for every rate; the remainder it advertises is how many requests would pass at once |
| `RateLimit.RateLimiter.Cleanup` | internal/http/middlewares/middleware.ratelimit.go:54-72 | removes exactly the visitors idle for more than five minutes |
| `Backoff.WaitFits` | pkg/mailer/mailer.async.go:204-209 | a delay whose exact product fits 64 bits is min(backoff·2^(attempt−1), 30 s) |
| `Backoff.WaitOverflows` | pkg/mailer/mailer.async.go:204-209 | the first delay whose product does not fit comes out negative |
| `Backoff.WaitsIdealIff` | pkg/mailer/mailer.async.go:204-209 | every delay of a job is the intended one iff backoff·2^(retries−2) fits 64 bits |
| `Backoff.IdealGrows` | pkg/mailer/mailer.async.go:204-209 | intended delays are positive, at most 30 s, and never shrink |
| `Mailer.UpdateWorker` | pkg/mailer/mailer.async.go:148-153 | changing one worker changes the count of jobs in flight by exactly that worker's job |
| `Mailer.RunKeepsInv` | pkg/mailer/mailer.async.go:115-217 | in every interleaving the order, capacity, attempt and balance invariants hold |
| `Mailer.JobsConserved` | pkg/mailer/mailer.async.go:115-217 | accepted = queued + in flight + sent + failed + abandoned, copy by copy; jobs are taken in FIFO order; none is abandoned before stop |
| `Mailer.ShutdownDrains` | pkg/mailer/mailer.async.go:126-153 | once every worker has exited the queue is closed and empty and every accepted job was attempted and met its fate |
| `Mailer.PanicsAreLateSends` | pkg/mailer/mailer.async.go:115-132 | in every interleaving enqueue panics exactly on the sends after the queue was closed, and such a send changes nothing; one between the two closes is still accepted |
| `Mailer.AsyncOTPMailer.constructor` | pkg/mailer/mailer.async.go:63-91 | non-positive workers, sizes, retries and backoff become their defaults |
| `Mailer.AsyncOTPMailer.EnqueueJob` | pkg/mailer/mailer.async.go:115-122 | appends while there is room, refuses when full, panics iff the queue is closed; never blocks |
| `Mailer.AsyncOTPMailer.DeliverJob` | pkg/mailer/mailer.async.go:155-226 | between 1 and retries attempts, stopping at the first success; abandoned only when stop was seen; every wait as computed, at most 30 s·(retries−1) in all; and the steps are those of the interleaved model |
| `Mailer.AsyncOTPMailer.CloseQueue` | pkg/mailer/mailer.async.go:126-132 | stop closes before the queue; jobs that fit in between are appended in order, and a second call changes nothing |
| `Mailer.AsyncOTPMailer.Work` | pkg/mailer/mailer.async.go:148-153 | while others take from the queue too, every queued job is taken once, in order; each that the others did not take meets here exactly the fate that its own attempts, the limit and the stop make |
| `Migration.DeriveStem` | internal/datasources/migration/migration.go:225-233 | a down file's record key is its up counterpart |
| `Migration.ApplyUpTrue` | internal/datasources/migration/migration.go:205-222 | script and row commit together: the record keeps naming exactly the scripts in effect, and an unrecorded script does not run twice |
| `Migration.ApplyDownTrue` | internal/datasources/migration/migration.go:205-222 | a down script takes its up script out of effect and off the record together |
| `Migration.UpRecords` | internal/datasources/migration/migration.go:80-96 | Up records exactly its files beside what was recorded, and never rewrites the past |
| `Migration.UpResumes` | internal/datasources/migration/migration.go:63-100 | after a failure at any file, a complete Up ends where one clean run would have |
| `Migration.InterruptedUpConverges` | internal/datasources/migration/migration.go:63-100 | however often and wherever Up failed, a success reaches the clean state, and one more Up changes nothing |
| `Migration.DownForgets` | internal/datasources/migration/migration.go:105-132 | Down forgets exactly the derived names of its files |
| `Migration.UpAppliesFresh` | internal/datasources/migration/migration.go:80-96 | Up runs every file in order iff none was recorded |
| `Migration.UpRunsMissing` | internal/datasources/migration/migration.go:80-96 | Up runs exactly the scripts of the files not yet recorded, each once, in order |
| `Migration.UpScriptsAt` | internal/datasources/migration/migration.go:80-96 | the script at each place is that of the file at that place |
| `Migration.DownRuns` | internal/datasources/migration/migration.go:119-128 | Down runs the script of each of its files once, in the order it visits them |
| `Migration.ReversedAt` | internal/datasources/migration/migration.go:117-117 | the reverse order puts each file at its place counted from the other end |
| `Migration.DownThenUpReappliesIff` | internal/datasources/migration/migration.go:105-132 | after Up and Down the next Up runs every file again iff each has a down file that derives its name |
| `Migration.Runner.ApplyFile` | internal/datasources/migration/migration.go:188-223 | whatever becomes of the transaction, the record table keeps naming exactly the scripts in effect, and no up script runs while it is in effect |
| `Migration.Runner.Up` | internal/datasources/migration/migration.go:63-100 | whatever fails, the state is that of a prefix of the files; success applies all |
| `Migration.Runner.Down` | internal/datasources/migration/migration.go:105-132 | whatever fails, the scripts run are those of the files from the last one backwards, as many as were done; success reverts all |
| `MigrationOrder.SuffixesIrrelevant` | internal/datasources/migration/migration.go:161-168 | between stems of which neither starts the other, no suffixes change the order |
| `MigrationOrder.SortedUnique` | internal/datasources/migration/migration.go:161-168 | a set of file names has only one sorted listing |
| `MigrationOrder.DownReversesUpIff` | internal/datasources/migration/migration.go:105-132 | when files pair by stem, the down files list in Up's order iff the two suffixes agree on every stem that starts another; then the i-th script of Down belongs to the stem of Up's i-th file from the end |
| `MigrationOrder.AgreesIff` | internal/datasources/migration/migration.go:161-168 | for a stem and a continuation of it, agreement is decided by how the continuation sorts against each suffix |
| `MigrationOrder.DotlessAgree` | internal/datasources/migration/migration.go:161-168 | only a stem that is another followed by a dot can disagree |
| `MigrationOrder.PairedRoundTripIff` | internal/datasources/migration/migration.go:105-132 | when files pair by stem, Down then Up runs every file again iff no stem is empty |
| `MigrationOrder.PrefixStemsCanDisagree` | internal/datasources/migration/migration.go:161-168 | "1" and "1.e" do disagree: their up files and their down files sort differently |
| `MigrationOrder.ShippedMigrationsStayRecorded` | cmd/migration/migrations/1_create_tables_users.up.sql:1 | after Up and Down the first two shipped migrations stay recorded, so the next Up runs neither |
| `MigrationLock.NextKeepsInv` | internal/datasources/migration/migration.go:144-159 | each step of each runner keeps the record table true and the lock exclusive |
| `MigrationLock.Exclusive` | internal/datasources/migration/migration.go:144-159 | only one runner can hold the lock |
| `MigrationLock.EachUpRunsOnce` | internal/datasources/migration/migration.go:70-99 | in every interleaving of any number of runners, with any failures that stop their runner, each up script commits at most once between its downs, and the record table lists exactly the scripts in effect |
| `MigrationLock.RunsAreSessions` | internal/datasources/migration/migration.go:63-132 | every interleaving of any number of runners, with any failures, leaves the database of its lock holders one after another, each stopped after a prefix of its files |
| `MigrationLock.UpsInterrupt` | internal/datasources/migration/migration.go:63-100 | consecutive Ups of any runners are the interrupted attempts of one Up |
| `MigrationLock.CompletedUpConverges` | internal/datasources/migration/migration.go:63-100 | in every interleaving a completed Up leaves what one clean Up makes of the state the last Down left, however many Ups failed in between; one more changes nothing |
| `OtpCode.GenerateOTPCode` | pkg/helpers/helper.otp_code_generator.go:7-34 | the code is the first n digits of the stream filtered to bytes below 250 and reduced modulo ten; it fails only when the source runs dry first |
| `OtpCode.PreimagesExact` | pkg/helpers/helper.otp_code_generator.go:8-31 | the counted byte strings are exactly those that produce the code |
| `OtpCode.CodesEquallyLikely` | pkg/helpers/helper.otp_code_generator.go:8-31 | every n-digit code has exactly 25^n accepted byte strings |
| `OtpCode.DigitsAreCodeIff` | pkg/helpers/helper.otp_code_generator.go:20-31 | on accepted bytes the generator yields a code iff the bytes are among its preimages |

## Left out

- HTTP handlers, routes, request validation and the splitting of the Authorization header: one-branch plumbing; the middleware is modelled from the bearer token on.
- Logging, audit, tracing and metrics: no effect on protocol state.
- SMTP sending and mail templates: the inner mailer is an oracle that succeeds or fails each attempt.
- bcrypt, HMAC, random bytes and UUIDs: symbolic digests and signatures, fresh values as parameters. The 72-byte limit on hashing is kept, as a limit on string length; that comparison ignores bytes past the 72nd is not.
- Redis, Postgres and Ristretto internals: deadlines are exact, the rounding of EXPIRE to seconds, asynchronous cache admission and pooled connections are not modelled; each migration runner is taken to hold one lock session.
- A database write that takes effect and still reports an error: only the key-value store and a migration's commit can do so in the model.
- Clocks: each use case reads one instant; sub-microsecond rounding of stored instants is not modelled.
- Unicode: addresses and user names are trimmed and lower-cased over ASCII; whether an address parses is a parameter.
- 64-bit range of strconv.ParseInt on the cutoff: the marker is written by the service itself.
- Tokens without an issue instant: the service never mints one.
- Soft delete and List in the repository: no use case reaches them; nothing evicts on soft delete, so reaching it would break cache coherence.
- Equal response times (dummy hashes, constant-time comparison): time spent is not part of the model; the decoy store writes are.
- Configuration loading, seeding and main programs: only their constants matter.
- RateLimiter.Handle: exact real arithmetic instead of float64, no infinite rate; concurrent requests of one address are taken one at a time.
- A migration runner that loses its lock session and goes on: in the model a runner stops when its session ends.
- A user lookup whose write to the cache is dropped: the cache may forget any entry at any time instead.
- OtpInterleaving: store commands do not fail, and every call may start at any instant, as if its user lookup always found an inactive account.
- AdmissionsBounded: needs a positive limit and window; a limit of zero or less switches the guard off.
