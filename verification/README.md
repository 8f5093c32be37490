# Guardian's authentication engine: a Dafny model

This project models the Go authentication engine of Guardian (`internal/auth`, `internal/mfa`, `internal/settings`,
`internal/authz`, `internal/crypto`, `internal/netutil` and the handlers in `internal/api` that drive them) and proves
properties of it with Dafny 4.11. `dafny verify dfyconfig.toml` checks everything.

Database tables are maps from id to row. Code that changes state step by step is a class whose methods keep the
branches, loops and order of the source; their contracts tie the new state to functions on values. Where several
requests race, a second module models every request as a program counter whose steps are its transactions, or its
single statements where a lock matters, and results are stated over all runs of that machine. Time is whole
nanoseconds on one monotone clock. A `fault` parameter is the number of the statement that fails.

| modules | what they model |
|---|---|
| `Challenges`, `Login`, `SignInHandlers`, `SignInCodes`, `Enrolment` | the password step, second-factor challenges, and the two handlers that finish a sign-in |
| `SignIn`, `SignInTraces`, `RecoverySignIns`, `GuessBudget`, `ChallengeLifetimes` | sign-in and enrolment requests racing on challenges, over all runs |
| `RecoveryCodes`, `RecoveryTable`, `RecoveryRaces` | recovery codes as text, as rows, and replaced and consumed concurrently |
| `Factors`, `FactorRaces`, `FactorPrimaries` | second factors over serial transactions, deletions racing enrolments, and the primary flag when they overlap |
| `Lockout` | failure counters and escalating locks |
| `Sessions`, `Accounts` | session lifetimes; password reset, password change and address confirmation |
| `Settings`, `SettingsRaces`, `Environment`, `Setup`, `SetupRaces` | the settings cache, the policies read from it, and first-run setup on several instances |
| `Grants` | permission patterns and the grants of an administrator |
| `SecretFormats`, `Base64`, `Totp`, `NumericCode` | stored secret formats, one-time passwords, emailed codes |
| `ClientIp` | the client address behind proxies, and address rules |
| `Text`, `Arith`, `Time`, `Wrappers` | shared text, arithmetic, time and result definitions |

## Where the code and its comments differ

The model follows the code. Each point is a theorem of the table below.

- `internal/auth/session.go:19` says AbsoluteDays caps the total lifetime. It does exactly when renewal is off or the idle
  limit is one minute (`Sessions.AbsoluteCapHoldsIff`); with a one-minute idle limit activity is never recorded at all.
- `internal/auth/lockout.go:31` speaks of five failures in ten minutes. The window is anchored at the stored first failure,
  so five failures in ten minutes need not lock; `Lockout.WhenMFailuresLock` says exactly when they do, and the bound that
  does hold is `Lockout.RateBound`, attained for every threshold. For a threshold of one the bound is two.
- `internal/auth/lockout.go:199`: the shift is bounded, yet the product can overflow, and the guard for a negative value catches
  only some overflows. The result is the capped doubling, and locks never shrink, exactly when at every shift the product fits
  or wraps to zero, below zero or past the cap (`Lockout.AlwaysCappedDoublingIff`, `Lockout.LocksNeverShrinkIff`). A base of
  2^48 + 1 ns with a large cap fails this (`Lockout.OverflowShrinksLocks`); the server's own policies never do.
- `internal/auth/mfa.go:131` says there is always exactly one primary method. At most one holds over serial transactions;
  revoking the primary leaves none. When enrolments overlap, two primaries result exactly if one commits as primary while
  another of the subject waits to (`FactorPrimaries.TwoPrimariesIffTwoWait`).
- `internal/mfa/recovery.go:67` says regenerating invalidates every previous code. It does exactly for codes inserted before
  the replacement began: two overlapping replacements leave both sets usable.
- `internal/mfa/challenge.go:20` bounds guesses by five. Overlapping requests reach four plus their number, and exactly that.
  Wrong codes submitted to the enrolment endpoint are not counted against the challenge; the bound is about VerifyMFA.
  Resending a code resets the counter; `UpdateChallengeEmailCode`, which does so, has no caller in the repository.
- `internal/api/setup_handlers.go:160`: the flag is read through the settings cache, and a failed read counts as "not set".
  So the flag closes setup exactly once every cache, load and request has seen it, and only while reads succeed.
- `internal/settings/settings.go:169`: after `Invalidate` the next request may still see the old policy, through a load that
  queried before the write; exactly when is `SettingsRaces.InvalidationIsPromptIff`.
- `internal/api/selfservice_handlers.go:235`: a factor revoked while its enrolment is being completed is not verified, yet the
  transaction still commits and, mid-login, issues the session (`SignInHandlers.EnrolmentCommitsTogether`).
- `internal/api/auth_handlers.go:95`: a failure that cannot be recorded is still answered as a rejection, uncounted.
- `internal/authz/match.go:64` accepts patterns that begin with a dot; they match only keys that do too.
- `internal/netutil/cidr.go:29`: rules inside the IPv4-mapped IPv6 block are accepted and match nobody, since client addresses are
  unmapped first. Every other accepted rule matches someone (`ClientIp.MatchesSomeoneIff`).
- `internal/crypto/tokens.go:58`: from ten digits on the sampler never accepts a draw, and from 64 on its modulus is zero and it
  panics.
- `internal/api/session_middleware.go:77`: a request of an administrator whose grants cannot be read is refused after its activity
  was recorded (`Sessions.SessionTable.ResolveSession`).

## Model

| member | source | states |
|---|---|---|
| `SignInTraces.SessionsInjectIntoSpentChallenges` | internal/api/auth_handlers.go:187-245 | in every interleaving of VerifyMFA and VerifyTOTPEnrollment requests, resends, extensions and other logins, each MFA-satisfied session not from single sign-on has a spent challenge of its own, of the same plane and subject, and no two sessions share one; and in the steps of the run either one request loaded that challenge while usable, then had a code checked that was right for this very account, then was the one to spend the challenge, then issued the session, or one enrolment request had a code accepted for an unrevoked factor of this account and its transaction then spent the challenge |
| `RecoverySignIns.RecoverySessionsSpendTheirOwnCodes` | internal/api/auth_handlers.go:253-261 | in every interleaving, each session signed in with a recovery code spent, by its own check, at least one unused code row of its own account, which stays spent or is deleted, and no two such sessions spent the same row |
| `SignIn.OriginsInject` | internal/api/auth_handlers.go:228-245 | the origins recorded along a run name distinct challenges, and every MFA-satisfied session has one |
| `SignIn.InvStep` | internal/api/selfservice_handlers.go:225-273 | every step of every request keeps the inductive invariant behind it: at most one request stands between spending a challenge and issuing its session, and nothing has come of that challenge yet |
| `SignIn.InvEnrolReload` | internal/api/selfservice_handlers.go:225-233 | the second load of the challenge cookie finds the very row the first one did, because token digests are unique, and the invariant is kept |
| `SignIn.EnrolTxFrame` | internal/api/selfservice_handlers.go:235-273 | the enrolment transaction rolls back only when it must spend a challenge that is gone or spent, commits only when that challenge is there unspent, and then spends it, adds that session and touches no other |
| `GuessBudget.ChecksAreBounded` | internal/mfa/challenge.go:80-124 | while at most k requests on a challenge are between LoadChallenge and RecordChallengeAttempt, attempts plus in-flight requests never exceed 4 + k and at most 4 + k codes are checked by VerifyMFA per mailed code; five when sequential and never resent |
| `GuessBudget.BudgetIsAttained` | internal/api/auth_handlers.go:196-227 | for every k >= 1 a run exists in which exactly 4 + k codes are checked against one challenge that was never resent |
| `ChallengeLifetimes.LoadedWithinFiveMinutes` | internal/mfa/challenge.go:80-183 | in every run, whichever step loads or reloads a challenge finds it unspent, with fewer than five attempts, and less than five minutes after an issue, a resend or an extension of it |
| `SignInHandlers.Handlers.VerifyMFA` | internal/api/auth_handlers.go:187-245 | whatever fails, the tables are those of the steps performed so far: nothing before the attempt is recorded, an attempt from then on; the challenge is unusable exactly when no usable row presents the cookie; and when no transaction fails and the account exists, it succeeds if and only if the submitted code is right, errs exactly when the mailed code cannot be opened, and is otherwise a wrong answer |
| `SignInHandlers.Handlers.VerifyChallengeCode` | internal/api/auth_handlers.go:249-295 | RECOVERY_CODE passes if and only if an unused row of the account holds the digest of the normalised code, and exactly those rows are spent; EMAIL if and only if the sealed reference opens under this account to the trimmed code, and failing to open is an error; anything else if and only if some verified unrevoked authenticator of the account has a secret that opens under its own id and accepts the code now |
| `SignInHandlers.Handlers.AnyTotpMatches` | internal/api/auth_handlers.go:274-294 | the loop that skips other kinds and secrets that do not open answers whether any of the methods accepts the code |
| `SignInCodes.MailedCodeIsRight` | internal/api/auth_handlers.go:263-271 | a mailed code is right exactly for the account it was mailed to and exactly as sent, white space around it aside; under another account it cannot be opened |
| `SignInCodes.ShownCodeIsRight` | internal/api/auth_handlers.go:273-294 | the digits an enrolled authenticator shows are right for 30 seconds either way |
| `SignInCodes.PrintedCodeIsRight` | internal/api/auth_handlers.go:253-261 | every stored recovery code is right however it is retyped, and only until it is checked once |
| `SignInCodes.RightCodeIff` | internal/api/auth_handlers.go:249-295 | what a right code is, for each kind, in terms of the rows, the opened secret and the comparison alone |
| `SignInHandlers.Handlers.FinishSignIn` | internal/api/auth_handlers.go:228-245 | 'already used' exactly when the row is spent, a database error exactly when a transaction fails, and otherwise that row is spent and one session issued |
| `SignInHandlers.HandlerIsARun` | internal/api/auth_handlers.go:187-245 | however far a call gets, with a right or a wrong code, an unknown account or a failing transaction, the tables it leaves are reached by the first steps of one request of the interleaved machine, whose check fails exactly when the code is wrong |
| `Enrolment.VerifyTOTPEnrollment` | internal/api/selfservice_handlers.go:179-290 | nothing is written unless the call succeeds, and then exactly the one transaction for the account it acts for, the caller's or that of a usable enrolment challenge; it is unauthorised, without such a factor, unreadable or refused exactly in the cases the source names; and without a failing statement it succeeds if and only if the submitted code is right for an unrevoked factor of that account and the challenge is still usable at the second look |
| `Enrolment.EnrolmentIsARun` | internal/api/selfservice_handlers.go:179-273 | a successful call is a run of the interleaved machine: arrive, find the account, validate, look again later, commit |
| `SignInHandlers.Handlers.CompleteEnrolment` | internal/api/selfservice_handlers.go:235-277 | whichever statement fails, the enrolment transaction leaves the tables untouched; otherwise it is the whole transaction, and it fails for no other reason than a lost challenge |
| `SignInHandlers.Handlers.FinishEnrolment` | internal/api/selfservice_handlers.go:256-272 | mid-login the challenge must be unspent, and exactly it is spent and one session issued; signed in already, nothing more happens |
| `SignInHandlers.EnrolmentCommitsTogether` | internal/api/selfservice_handlers.go:235-273 | after a committed enrolment the subject's unused recovery codes are exactly the new ones, the factor is verified unless it had been revoked meanwhile, and mid-login the challenge, unspent until then, is spent and one session exists more |
| `SignInHandlers.EnrolmentTouchesItsOwn` | internal/api/selfservice_handlers.go:235-273 | a committed enrolment touches no factor but its own unrevoked one and nobody else's recovery codes |
| `Login.LoginHandler.Login` | internal/api/auth_handlers.go:44-126 | exactly when a login is refused, locked out, rejected or not permitted; a session comes only from a right password of an active account with no factor where no policy asks for one, and clears both counters; a rejection is one failure event of the account's and the address's lockout run, made after their lock check; no other counter moves; a challenge is issued to the right account with the right purpose and an emailed code only when no authenticator exists |
| `Login.LoginHandler.StartChallenge` | internal/api/auth_handlers.go:133-165 | issuing a challenge adds exactly one row, or nothing |
| `Login.LoginIsAStep` | internal/api/auth_handlers.go:133-165 | what a login writes is a step of the interleaved machine, so its whole-run results cover logins |
| `Login.StricterNeverAuthenticates` | internal/auth/login.go:183-195 | a stricter policy, account flag or one more factor never turns a second-factor decision into a session |
| `Login.FactorsThatCount` | internal/auth/mfa.go:25-36 | only verified, unrevoked factors of this very account count, and only an authenticator makes a mailed code unnecessary |
| `Challenges.ChallengeTable.IssueChallenge` | internal/mfa/challenge.go:53-73 | one new unspent row with no attempts that runs out five minutes later, or a failure when the digest exists |
| `Challenges.ChallengeTable.LoadChallenge` | internal/mfa/challenge.go:80-112 | the row returned is of this plane and token, unspent, not past its expiry and has fewer than five attempts; not-found exactly when no row presents a non-empty token, expired exactly when it is spent or its expiry has come, and too many attempts exactly when five were made of a row that is neither |
| `Challenges.ChallengeTable.RecordChallengeAttempt` | internal/mfa/challenge.go:116-124 | adds one attempt to that row and changes nothing else |
| `Challenges.ChallengeTable.ConsumeChallenge` | internal/mfa/challenge.go:130-145 | succeeds exactly when the row exists and is unspent, and then spends it |
| `Challenges.ChallengeTable.UpdateChallengeEmailCode` | internal/mfa/challenge.go:149-158 | replaces the code, resets attempts and gives five more minutes to an unspent row; a spent one stays |
| `Challenges.ChallengeTable.ExtendChallenge` | internal/mfa/challenge.go:166-183 | gives five more minutes to an unspent row and reports whether it could |
| `RecoveryCodes.NewRecoveryCode` | internal/mfa/recovery.go:43-59 | the printed code is the selected symbols with a dash before every group of four but the first |
| `RecoveryCodes.DisplayGroups` | internal/mfa/recovery.go:43-59 | the shown code has its symbols in order in groups of four with a dash between groups and nowhere else |
| `RecoveryCodes.EachSymbolFromEightBytes` | internal/mfa/recovery.go:24-59 | each of the thirty-two symbols is printed by exactly eight of the 256 byte values |
| `RecoveryCodes.NormalizesIffRetyped` | internal/mfa/recovery.go:61-65 | an ASCII text normalises to a stored code if and only if it is that code in some letter case, with dashes anywhere and white space around it |
| `RecoveryCodes.GeneratedCodeNormalizes` | internal/mfa/recovery.go:43-65 | a generated code as shown normalises to its undecorated form |
| `RecoveryTable.FreshCodesAreAccepted` | internal/mfa/recovery.go:71-115 | every code of a freshly stored set is accepted however it is retyped |
| `RecoveryTable.CodeTable.ReplaceRecoveryCodes` | internal/mfa/recovery.go:71-88 | the loop ends with the subject's old rows gone and one new row per digest, unless a statement failed |
| `RecoveryTable.CodeTable.ConsumeRecoveryCode` | internal/mfa/recovery.go:95-115 | succeeds exactly when the normalised code is not empty and an unused row of the account holds its digest; those rows are spent at that time and no other row changes; afterwards the same code is not accepted again |
| `RecoveryTable.CodeTable.CountUnusedRecoveryCodes` | internal/mfa/recovery.go:119-129 | the number of the subject's unused rows |
| `RecoveryTable.ReplacementLeavesTheNewSet` | internal/mfa/recovery.go:67-88 | after a replacement the subject's rows are exactly the new unused ones, as many as were given, and every other row stands as it was |
| `RecoveryRaces.EachCodeSucceedsAtMostOncePerIssue` | internal/mfa/recovery.go:90-115 | in any interleaving of replacing and consuming transactions, with row locks, a code succeeds at most as often as it was issued: once, if issued once |
| `RecoveryRaces.IssuedEqualsUnusedPlusSpent` | internal/mfa/recovery.go:71-129 | after a replacement that no other overlapped, with distinct codes, unused codes plus successful consumptions equal the number issued, along every run until the next replacement |
| `RecoveryRaces.ReplacedCodeIsDeadIff` | internal/mfa/recovery.go:67-88 | an old code outside the new set can never succeed again, unless reissued, if and only if no unused row of it was inserted after the replacement began |
| `RecoveryRaces.CanSucceedIffLive` | internal/mfa/recovery.go:90-115 | a code can still succeed without being reissued exactly while an unused row of it stands |
| `RecoveryRaces.OverlappingReplacementsKeepBothSets` | internal/mfa/recovery.go:67-88 | two replacements for an owner without codes that both begin before either commits leave both sets usable, whatever the sets |
| `RecoveryRaces.AloneItConsumes` | internal/mfa/recovery.go:95-115 | uninterrupted, the locking statement computes what the sequential method does |
| `RecoveryRaces.AloneItReplaces` | internal/mfa/recovery.go:71-88 | uninterrupted, the locking transaction computes what the sequential method does |
| `FactorRaces.LastFactorIsNeverLost` | internal/api/selfservice_handlers.go:318-346 | while MFA is required for a subject, no interleaving of deletions and enrolments takes it from at least one verified live factor to none |
| `FactorRaces.InvStep` | internal/auth/mfa.go:183-211 | every statement keeps the invariant that a deletion past its count still has the factors it counted, because it holds the owner's row lock |
| `FactorRaces.AloneItDeletes` | internal/api/selfservice_handlers.go:318-346 | uninterrupted, the locking deletion refuses or revokes as the sequential one does, and releases its locks |
| `FactorRaces.AloneItEnrols` | internal/auth/mfa.go:130-146 | uninterrupted, the enrolment's update is the sequential verification |
| `FactorPrimaries.CommitKeepsOnePrimaryIff` | internal/auth/mfa.go:130-146 | committing an enrolment keeps at most one primary if and only if it writes nothing, or no primary, or no other live factor of the subject is primary by then |
| `FactorPrimaries.AtMostOnePrimaryUnlessOvertaken` | internal/auth/mfa.go:130-168 | at most one primary in every run in which no enrolment commits as primary while another of the subject waits to |
| `FactorPrimaries.TwoPrimariesIffTwoWait` | internal/auth/mfa.go:130-146 | the transactions in flight can end in two primaries if and only if two enrolments of the subject have both verified as primary and neither has committed |
| `FactorPrimaries.OverlappingEnrolmentsMakeTwoPrimaries` | internal/auth/mfa.go:130-146 | in any state, for any two unverified factors of any owner without live ones, two enrolments whose updates overlap both become primary |
| `Factors.AtMostOnePrimaryAlways` | internal/auth/mfa.go:130-181 | over serial transactions a subject never has two primary factors among the live verified ones |
| `Factors.WhenAPrimaryExists` | internal/auth/mfa.go:130-168 | exactly when a primary exists after a verification and after a revocation |
| `Factors.RevocationCanLeaveNoPrimary` | internal/auth/mfa.go:158-168 | the history that creates and verifies two factors and revokes the primary one leaves a live factor and no primary, against the comment at line 131 |
| `Factors.RevokeTakesAtMostOne` | internal/auth/mfa.go:158-168 | a revocation removes that factor from the live ones of its subject and no other |
| `Factors.VerifyMakesPrimary` | internal/auth/mfa.go:130-146 | a verification makes that factor live, and primary exactly when no other live one exists |
| `Factors.FactorTable.CreateMFAMethod` | internal/auth/mfa.go:103-115 | adds an unverified factor, which protects nobody yet |
| `Factors.FactorTable.CountVerifiedMFAMethods` | internal/auth/mfa.go:192-211 | the number of verified factors that are not revoked |
| `Factors.FactorTable.VerifyMFAMethod` | internal/auth/mfa.go:130-146 | an unrevoked factor of the subject becomes verified, and primary exactly when no other live one exists; anything else writes nothing |
| `Factors.FactorTable.RevokeMFAMethod` | internal/auth/mfa.go:158-168 | an unrevoked factor of the subject becomes revoked and not primary; anything else writes nothing |
| `Factors.FactorTable.RevokeAllMFAMethods` | internal/auth/mfa.go:170-181 | every unrevoked factor of the subject becomes revoked and not primary, none stays live, and no other row changes |
| `Factors.FactorTable.DeleteMFA` | internal/api/selfservice_handlers.go:322-347 | refuses exactly when the policy requires a factor and at most one is left, rolls back on any failure, and never leaves a protected subject without one |
| `Lockout.RateBound` | internal/auth/lockout.go:96-170 | over all runs of one key, a half-open interval no longer than the window and the shortest lock, without a clear in it, holds at most 2M - 1 recorded failures (two when M = 1), at most 2(M - 1) if no lock falls in it, and a lock is always the last of them, whatever the base and cap |
| `Lockout.ShortestLock` | internal/auth/lockout.go:187-208 | where the doubling is capped correctly, every lock lasts d seconds or more exactly when the whole seconds of min(Base, MaxDuration) do |
| `Lockout.RateBoundIsAttained` | internal/auth/lockout.go:96-152 | for every M >= 1 and window a run of checked attempts exists with exactly that many failures in such an interval, only the last of which locks |
| `Lockout.LockIsLast` | internal/auth/lockout.go:44-78 | a lock ends the burst it falls in |
| `Lockout.WhenMFailuresLock` | internal/auth/lockout.go:80-83 | M failures inside one window lock if and only if the key has no row, or its stored window has lapsed, or it still covers the failure that reaches the threshold |
| `Lockout.ConfiguredThresholdLocks` | internal/auth/lockout.go:96-152 | the threshold and window that count are the configured ones, or five in ten minutes where the threshold is not positive: from a key without a row that many failures inside the window lock it, counting one lock, and no fewer do |
| `Lockout.ThresholdOneLocks` | internal/auth/lockout.go:112-152 | with a threshold of one the first failure of a key and the first after its window are not locked |
| `Lockout.KthLockDuration` | internal/auth/lockout.go:154-208 | the k-th lock since the last clear lasts exactly the whole seconds of the computed duration, which is min(Base * 2^min(k-1,16), MaxDuration) if and only if that product fits 64 bits, or wraps to a value the guard catches |
| `Lockout.BackoffIsCappedDoublingIff` | internal/auth/lockout.go:187-208 | for every base and cap, the duration is the base doubled per earlier lock, sixteen times at most, then capped, if and only if the product fits 64 bits or wraps to zero, below zero or to at least the cap; it is always positive and within the cap |
| `Lockout.AlwaysCappedDoublingIff` | internal/auth/lockout.go:187-208 | that holds after every number of locks if and only if it holds at each of the sixteen shifts |
| `Lockout.LocksNeverShrinkIff` | internal/auth/lockout.go:187-208 | later locks are never shorter if and only if the same condition on base and cap holds |
| `Lockout.ServerPoliciesCap` | internal/api/env.go:62-72 | it holds of every policy the server uses, since only the threshold and the window are configurable |
| `Lockout.OverflowShrinksLocks` | internal/auth/lockout.go:199-206 | a base of 2^48 + 1 ns overflows to a lock of zero seconds after sixteen locks |
| `Lockout.LockoutCountIsLocksSinceClear` | internal/auth/lockout.go:154-185 | the stored count is the number of locks since the last clear |
| `Lockout.LockoutTable.CheckLockout` | internal/auth/lockout.go:44-78 | reports a lock exactly when a row of either key is locked past now; after the reported whole seconds neither key is, and one second less would not do unless it is one |
| `Lockout.LockoutTable.RecordFailureFor` | internal/auth/lockout.go:96-170 | under the caller's own policy, or the default one where its threshold is not positive, that one row starts, restarts past the window, counts on, or locks with the count back at zero and one lockout more |
| `Lockout.LockoutTable.RecordFailure` | internal/auth/lockout.go:84-94 | both counters move once in either order of visit, an empty key is skipped, other rows stay |
| `Lockout.LockoutTable.ClearFailures` | internal/auth/lockout.go:174-185 | clears counts and locks of the two keys and keeps their window start |
| `Sessions.ThrottleLag` | internal/auth/session.go:32-35 | after every run of requests, under policies that may change, 0 <= last use - last_activity_at < one minute |
| `Sessions.ThrottledRefinesIdeal` | internal/auth/session.go:163-179 | with an idle limit of k > 0 minutes, every session last used k minutes ago or more is rejected, and none idle for at most the limit less one interval is rejected as idle |
| `Sessions.ExpirySlides` | internal/auth/session.go:204-241 | with a fixed policy the expiry never decreases, never exceeds last activity plus the lifetime, and never moves when renewal is off |
| `Sessions.UsedSessionsNeverExpire` | internal/auth/session.go:204-241 | a session used with gaps that, plus one interval, fit the renewal window, the lifetime and the idle limit is accepted at every request |
| `Sessions.AbsoluteCapHoldsIff` | internal/auth/session.go:19-25 | AbsoluteDays limits the total lifetime over all request sequences exactly when renewal is off or the idle limit is one minute |
| `Sessions.OneMinuteIdleNeverTouches` | internal/auth/session.go:204-241 | with a one-minute idle limit activity is never recorded |
| `Sessions.RenewalOutlivesTheCap` | internal/auth/session.go:17-25 | otherwise a session used every minute is still accepted when its lifetime has passed |
| `Sessions.SessionTable.IssueSession` | internal/auth/session.go:62-116 | one new row that was last active at its issue and expires the configured days later, or thirty where none are configured |
| `Sessions.SessionTable.LookupSession` | internal/auth/session.go:123-197 | accepts exactly an unrevoked, unexpired session of an active account that has been idle for less than the limit, if there is one; otherwise reports the first failing check |
| `Sessions.SessionTable.TouchSession` | internal/auth/session.go:204-241 | writes at most once an interval, renews close to expiry, leaves a revoked row alone, and updates the request's own picture even then |
| `Sessions.SessionTable.ResolveSession` | internal/api/session_middleware.go:63-87 | an unacceptable token is refused with the first failing check and changes nothing; an acceptable one is served, leaves the row the request model says, and is accepted unless an administrator's grants cannot be read, which refuses it after the touch |
| `Sessions.SessionTable.RevokeSession` | internal/auth/session.go:244-253 | ends one session, once |
| `Sessions.SessionTable.RevokeSessionsForSubject` | internal/auth/session.go:260-272 | ends every live session of the subject but the excepted one and counts them |
| `Accounts.RevokedForever` | internal/auth/session.go:218-272 | once revoked, a session is frozen and rejected by every later lookup of every run, racing touches included |
| `Accounts.SigningOutIsFinal` | internal/auth/session.go:244-272 | a session that a sign-out ended, or the sign-out of all sessions of its account but another, is rejected after every further run |
| `Accounts.ResetIsFinal` | internal/api/signup_handlers.go:345-391 | after a reset and any further run, no session that existed then is accepted and no reset token of the subject that existed then is usable |
| `Accounts.ResetLeavesNothingLive` | internal/api/signup_handlers.go:345-391 | a committed reset leaves no live session, one live password, the new one, and no unconsumed reset token of the subject; other subjects keep theirs |
| `Accounts.ResetTouchesOnlyTheSubject` | internal/api/signup_handlers.go:345-391 | a committed reset changes nothing but the end times of live sessions, passwords and reset tokens of its subject, and adds the new password |
| `Accounts.LinksExpire` | internal/api/signup_handlers.go:345-356 | in every run a reset link or a confirmation link works less long after it was mailed than the life it was issued with |
| `Accounts.HasUsableIff` | internal/api/signup_handlers.go:345-356 | a token is usable exactly when it has this digest and plane, is not consumed and its expiry lies ahead |
| `Accounts.ChangeKeepsOnlyTheCaller` | internal/api/selfservice_handlers.go:558-580 | a committed password change leaves no live session of the subject except possibly the caller's, and one live password |
| `Accounts.SetPasswordLeavesOne` | internal/auth/login.go:202-224 | exactly one live password, the new one, and nobody else's changed |
| `Accounts.TokensAreSingleUse` | internal/api/signup_handlers.go:190-249 | a reset or confirmation token succeeds at most once in any run |
| `Accounts.RunGrows` | internal/auth/session.go:244-272 | no step of any run revives a session, frees a spent token or reuses an id |
| `Accounts.Database.ResetPassword` | internal/api/signup_handlers.go:333-405 | all seven statements or none; it fails for no other reason than a fault or an unusable token |
| `Accounts.Database.ChangePassword` | internal/api/selfservice_handlers.go:556-580 | all statements or none |
| `Accounts.Database.VerifyEmail` | internal/api/signup_handlers.go:190-249 | all statements or none, and the first confirmation time is kept |
| `SetupRaces.AtMostOneWinner` | internal/api/setup_handlers.go:83-127 | however many setups run on however many instances with caches however stale, even when settings reads fail, at most one commits while the accounts made by setups keep a live password |
| `SetupRaces.FreshDeploymentHasOneWinner` | internal/api/setup_handlers.go:64-148 | the same from a fresh deployment |
| `SetupRaces.FlagClosesIffEveryoneHasSeenIt` | internal/api/setup_handlers.go:152-187 | with the flag set and settings reads that succeed, another setup can still commit, whatever happens to credentials, if and only if some fresh cache, load in flight or request past the flag check has not seen it |
| `SetupRaces.ClosedForever` | internal/api/setup_handlers.go:21-31 | once none is left, no run commits another setup |
| `SetupRaces.ClosedAfterOneLifetime` | internal/settings/settings.go:53-56 | without loads and requests in flight, one cache lifetime closes setup on every instance; an invalidation empties its instance's cache at once |
| `SetupRaces.FailedReadReopensSetup` | internal/settings/settings.go:136-144 | a failed settings read counts as a clear flag: with it a closed system whose staff lost their passwords makes another super admin |
| `Setup.CompletedLeavesOneWayIn` | internal/api/setup_handlers.go:99-113 | a completed setup leaves the chosen account, the one with this address or a new one, able to sign in with exactly one live password, as one more super admin, the flag set, addresses unique and every other account and credential as it was |
| `Setup.NoStaffMeansNobodyCanSignIn` | internal/api/setup_handlers.go:164-174 | the NOT EXISTS query is true exactly when no active account has a live password |
| `Setup.Instance.CompleteSetup` | internal/api/setup_handlers.go:64-148 | commits only when the flag read and the staff query both allow it, rolls back on any failing statement, and is refused as already complete exactly when one of them does not |
| `Setup.Instance.ReadFlag` | internal/settings/settings.go:136-144 | the cached answer while fresh, else the table's, else false when the query fails |
| `Setup.Instance.UpsertFirstAdmin` | internal/api/setup_handlers.go:192-221 | revives the account with this address, or makes a new active one |
| `SettingsRaces.StalenessIsBounded` | internal/settings/settings.go:72-124 | in every interleaving of query, store, hit, invalidation and write, each map handed out at time t has exactly the default keys and is the policy of a table that was current at some time later than t - TTL - D, D bounding the time from query to store |
| `SettingsRaces.StalenessIsAttained` | internal/settings/settings.go:89-117 | for every D a table overwritten at once is still handed out TTL + D - 1 later |
| `SettingsRaces.InvalidationIsPromptIff` | internal/settings/settings.go:169-175 | after an invalidation all later reads reflect a given write if and only if no load that can still store its answer queried the table before it |
| `Settings.OverlayIsEffective` | internal/settings/settings.go:84-112 | whatever order the rows arrive in, the map built has the readable values of the known keys and the defaults for the rest |
| `Settings.SetIsEffective` | internal/settings/settings.go:146-186 | an accepted value is the policy of its key from then on, a whole number or a boolean is read back as itself, a value that does not decode leaves the default, and no other key changes |
| `Settings.Store.All` | internal/settings/settings.go:72-124 | a new map object, never the cached one, with the default keys; the cached policy while fresh, else that of the table; a failed query changes nothing |
| `Settings.Store.Int` | internal/settings/settings.go:127-186 | the integer part towards zero of the number in force, or of the default when the query fails, and zero for anything but a number |
| `Settings.Store.Bool` | internal/settings/settings.go:136-144 | true exactly when the value in force, or the default when the query fails, is true |
| `Settings.SettingsTable.Set` | internal/settings/settings.go:148-167 | an unknown key is an error and writes nothing |
| `Settings.Merge` | internal/settings/settings.go:84-112 | the defaults with the rows written over them in order |
| `Settings.Copy` | internal/settings/settings.go:75-78 | a new object with the same entries |
| `Environment.Env.SessionPolicy` | internal/api/env.go:54-60 | three reads that agree: the session policy of the settings in force |
| `Environment.Env.LockoutPolicy` | internal/api/env.go:63-72 | the default policy with the threshold and window in force where they are positive |
| `Environment.Env.RequiresMFA` | internal/api/env.go:75-80 | the boolean of the plane's own setting |
| `Environment.SessionSettingsAreEffective` | internal/api/env.go:54-60 | an accepted number moves its own field of the session policy and nothing else |
| `Environment.LockoutSettingsAreEffective` | internal/api/env.go:63-72 | an accepted threshold or window moves its own field of the lockout policy and nothing else, and leaves the default where it is not positive |
| `Environment.AcceptedThresholdLocks` | internal/api/env.go:63-72 | after a threshold of k >= 2 has been accepted as a setting, k failures of a fresh key inside the window lock it for five minutes and fewer do not |
| `Environment.AcceptedIdleLimitHolds` | internal/api/env.go:54-60 | after an idle limit of k >= 1 minutes has been accepted as a setting, a session last used k minutes ago is rejected, whatever requests came before |
| `Environment.Defaults` | internal/settings/settings.go:38-51 | without settings a session lasts thirty days, idles for thirty minutes and renews within seven days, and five failures in ten minutes lock for five minutes to an hour |
| `Grants.MatchIsSegmentMatch` | internal/authz/match.go:29-59 | matching on raw strings agrees with the four rules over dot-split segments, for all patterns and keys |
| `Grants.StorableIffUseful` | internal/authz/match.go:61-82 | every storable pattern matches some key, and a pattern matches some key without leading or trailing dot if and only if it is storable and does not start with a dot |
| `Grants.StorableSegments` | internal/authz/match.go:61-82 | storable are exactly everything, a key without empty segments at its ends, a literal head that is not empty followed by a star, and a star followed by one literal segment |
| `Grants.Expand` | internal/authz/match.go:89-99 | the granted set is exactly the permissions some pattern matches, whatever the order |
| `Grants.ResolveAdminGrants` | internal/authz/resolve.go:41-93 | exactly the permissions matched by a pattern of a live role held directly or through a live team membership |
| `Grants.EffectiveIff` | internal/authz/resolve.go:41-93 | the routes to a permission row by row: an unrevoked direct role that has not lapsed, or the role of a team the administrator belongs to |
| `Grants.DeadRoleGrantsNothing` | internal/authz/resolve.go:43-56 | a direct role that is revoked or has lapsed grants nothing |
| `Grants.GrantsAreMonotone` | internal/authz/resolve.go:41-93 | more roles, members, patterns or permissions never lose a grant, and time alone never adds one |
| `Grants.ReadWildcardIsReadOnly` | internal/authz/match.go:29-59 | '*.read' matches exactly the keys of at least two segments ending in read |
| `SecretFormats.ParsePrintedHash` | internal/crypto/argon2.go:35-95 | parsing a printed hash recovers its parameters, salt and key, through '$' splitting, decimal printing and unpadded base64; any other version is refused, and so are parameters that do not fit their integer types |
| `SecretFormats.AcceptedHashes` | internal/crypto/argon2.go:53-86 | an accepted text has six fields, names argon2id and version 19 and decodes to what is returned |
| `SecretFormats.PrintedText` | internal/crypto/argon2.go:44-51 | the stored text, letter by letter |
| `SecretFormats.VerifyHashedPassword` | internal/crypto/argon2.go:53-95 | checking any password against a printed hash never errors and accepts exactly when Argon2 maps both to one key; the hashed password is accepted |
| `SecretFormats.OpenReachesCipher` | internal/crypto/aesgcm.go:58-89 | opening a sealed value calls the cipher with exactly the nonce, ciphertext and context given |
| `SecretFormats.OpenIff` | internal/crypto/aesgcm.go:68-89 | a text opens exactly when it is 'v1:' and base64 of at least a nonce and the cipher accepts the rest in this context; malformed exactly when it is not of that form |
| `SecretFormats.SealedValueIsBoundToItsRow` | internal/crypto/aesgcm.go:53-89 | a sealed value opens to its plaintext under its own context and under no other |
| `Base64.DecodeEncode` | internal/crypto/argon2.go:44-49 | unpadded base64 (section 4 of RFC 4648) decodes to the bytes encoded, for every byte string |
| `Base64.AlphabetOfRfc4648` | internal/crypto/argon2.go:44-45 | the symbols are those of table 1 of RFC 4648 |
| `Base64.EncodeConcat` | internal/crypto/argon2.go:44-45 | whole three-byte groups encode one after the other |
| `Base64.ExamplesOfRfc4648` | internal/crypto/argon2.go:44-45 | test vectors of section 10 of RFC 4648 |
| `Totp.Validate` | internal/mfa/totp.go:71-89 | accepts exactly a code that, trimmed, the generator prints for the decoded secret at one of the three wrapped counters around now |
| `Totp.MatchWindow` | internal/mfa/totp.go:78-88 | the accumulated verdict is that some counter of the window matches |
| `Totp.GenerateCode` | internal/mfa/totp.go:104-123 | the buffer and modulus loops compute the truncation of section 5.3 of RFC 4226 |
| `Totp.GeneratedCodeShape` | internal/mfa/totp.go:104-123 | a generated code always has exactly six digits; they denote, modulo a million, the four bytes of the MAC at the offset its last nibble names, less their top bit, and the MAC is of the eight bytes that denote the counter |
| `Totp.ExampleOfRfc4226` | internal/mfa/totp.go:113-118 | the worked example of section 5.4 of RFC 4226 |
| `Totp.WindowIsThreeCounters` | internal/mfa/totp.go:78-88 | the three counters are the neighbours of now, wrapping below zero to 2^64 - 1; times before 1970 count from 2^64 |
| `Totp.CodeValidWithinOnePeriod` | internal/mfa/totp.go:66-101 | a code made at t is accepted at every t' within 30 seconds, with white space around, and its counter is outside the window from 60 seconds on |
| `Totp.CounterDistance` | internal/mfa/totp.go:78-88 | times within 30 seconds share a window, times 60 apart do not |
| `NumericCode.NewNumericCode` | internal/crypto/tokens.go:53-71 | stops at the first draw below the limit and prints its residue |
| `NumericCode.EveryCodeEquallyLikely` | internal/crypto/tokens.go:53-71 | for one to nine digits more than half of all draws are accepted and every code is printed by exactly limit / 10^digits of the accepted four-byte draws |
| `NumericCode.CodeReadsBack` | internal/crypto/tokens.go:69-71 | the printed code has exactly the requested digits and parses back to the residue |
| `NumericCode.TenDigitsNeverAccept` | internal/crypto/tokens.go:58-64 | wherever the modulus is not zero, no draw is ever accepted if and only if ten digits or more are asked for |
| `NumericCode.SpaceVanishesFrom64` | internal/crypto/tokens.go:54-58 | the modulus wraps to zero if and only if 64 digits or more are asked for |
| `NumericCode.ComputeSpace` | internal/crypto/tokens.go:54-57 | the multiplication loop computes 10^digits modulo 2^64 |
| `ClientIp.ClientIP` | internal/netutil/clientip.go:23-47 | the loop computes the right-to-left walk over the forwarded list |
| `ClientIp.LeftEntriesDoNotMatter` | internal/netutil/clientip.go:23-47 | with an untrusted or unparseable entry in the list, prepending entries changes nothing; without one, a valid untrusted prepended entry does |
| `ClientIp.ResultIsVouchedFor` | internal/netutil/clientip.go:23-47 | the result is the peer, or a valid untrusted entry all of whose right neighbours are trusted |
| `ClientIp.WalkIgnoresLeft` | internal/netutil/clientip.go:23-47 | the walk over a concatenation is decided by its right part as soon as that contains a stopping entry |
| `ClientIp.WalkIs` | internal/netutil/clientip.go:34-47 | the walk ends at the rightmost entry that is not a trusted address, with that address or, if it is none, with the peer; past them all, with the peer |
| `ClientIp.UnmapIs` | internal/netutil/clientip.go:24-41 | an address of the IPv4-mapped block becomes its IPv4 address and no other changes |
| `ClientIp.InAny` | internal/netutil/clientip.go:58-68 | true exactly when some prefix contains the address |
| `ClientIp.Allowed` | internal/netutil/clientip.go:49-56 | an empty list allows everyone, any other exactly the addresses it contains |
| `ClientIp.ContainsIsPrefixMatch` | internal/netutil/clientip.go:58-68 | a rule contains exactly the addresses of its family, without zone, whose leading bits are those of its own address |
| `ClientIp.MaskedMatchesTheSame` | internal/netutil/cidr.go:29-48 | a rule written with host bits set matches the same addresses as its masked form, and masking twice is masking once |
| `ClientIp.SingleHostMatchesItself` | internal/netutil/cidr.go:29-48 | a bare address becomes a rule that matches exactly that address |
| `ClientIp.StoredRule` | internal/netutil/cidr.go:29-48 | one entry fails exactly when its text does not parse; a bare address becomes a rule for itself, and a block a rule for what the block as written contains, stored under its lowest address |
| `ClientIp.NonBlankParts` | internal/netutil/cidr.go:14-20 | blank entries are skipped, the others trimmed and kept in order |
| `ClientIp.MatchesSomeoneIff` | internal/netutil/cidr.go:29-48 | an accepted rule matches some client address if and only if it does not lie inside the IPv4-mapped IPv6 block |
| `ClientIp.ParseCIDRList` | internal/netutil/cidr.go:12-26 | fails exactly when a non-blank entry does not parse, else returns one rule per non-blank entry, in order |

## Left out

- HTTP routing, cookies, JSON bodies, status codes and message texts, cross-site checks, request ids and the audit trail: inputs and
  outcomes of the handlers are parameters and results, and an audit row is one more statement that may fail.
- SQL text and the database itself: only the effect of each statement on the modelled rows, row and advisory locks, commit
  and rollback. The column default `first_failure_at = now()` is assumed on insert. Deadlocks appear as aborts.
- Argon2id, the AEAD, SHA-256, HMAC-SHA1 and the random source: function parameters with the laws named where they are used,
  and input streams. Collisions of digests are not excluded; equal digests are equal codes.
- Timing behaviour such as constant-time comparison and dummy hashing.
- Base32 decoding, Unicode upper-casing outside ASCII, and the text forms of addresses and prefixes: parameters.
- The Go clock and the database clock are one clock; `Seconds()` and `Ceil` are exact integer arithmetic, not floating point;
  day and minute durations do not overflow 64 bits.
- Two concurrent first failures of one key: the conflict branch of the insert in `internal/auth/lockout.go:117` increments a row that
  appeared meanwhile; the model is of sequential attempts.
- RevokeAllMFAMethods, the administrator's reset, is in the serial factor model and deliberately outside the claim that the last
  factor is never lost.
- In `Accounts` and `Lockout` a transaction is one step: a login whose transaction overlaps a reset's may still insert its session after it.
- ListSessions, ListMFA, SessionBelongsTo, Logout and the listing endpoints: plain queries and single revocations.
- Sign-up, provisioning, single sign-on and mail: single sign-on sessions appear only as sessions of another method.
- IP allowlist storage, theme settings, tenants, billing, devices and everything under `web`.
- `Setup.Instance.CompleteSetup`: whether the address and password are acceptable is one parameter.
- `Login.LoginHandler.Login`: finding the account and verifying its password are parameters; what verification means is in `SecretFormats`.
- `RecoveryCodes.NormalizesIffRetyped`: the backward direction is for ASCII texts only, because the upper-casing of other letters is a parameter.
- `NumericCode.NewNumericCode`: a zero modulus, which means 64 or more digits, panics in the program and is excluded.
- `SignInHandlers.Handlers.VerifyMFA`: the login stamps, cleared lockout counters and last-use stamps written with a success, and the
  order in which methods are tried, are not modelled; the mailed code itself and its sealing are in `SignInCodes`.
- `SignInTraces.SessionsInjectIntoSpentChallenges`: in the machine a check step says which factor, mail or recovery digest was
  right, and a validation step that the code was; that the submitted text was is `SignInHandlers.HandlerIsARun` and
  `Enrolment.VerifyTOTPEnrollment`, for calls that nothing interferes with.
