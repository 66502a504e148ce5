# Nestorage: stateful core, modelled and proved

Nestorage is a household inventory server. This project models the parts of it that keep
state across requests and races, and proves what they are relied on for:

* the keyed token-bucket rate limiter and its middleware: a bounded map with eviction that
  has to answer like one bucket per key for ever (`TokenBucket`, `KeyedRateLimiter`,
  `RateLimiterEviction`, `RateLimiterAnswers`, `RateLimiterConditions`, `RateLimiterWaits`,
  `RateLimiterAdmission`, `RateLimiterSize`);
* the login attempt limiter and the login endpoint over it, attempts that race included
  (`LoginAttemptLimiter`, `LoginLockout`, `LoginGuesses`, `LoginRaces`, `LoginLimiterSize`);
* the transactions over the member and profile tables: the last-active-admin guard, profile
  provisioning, and what each operation does alone (`IdentityTables`, `UserRepository`,
  `MemberTransactions`, `MemberCommits`, `LastActiveOwner`, `HouseholdOwners`, `ProfileColors`,
  `DeactivatedProfiles`);
* first-run provisioning and the setup guard's latch (`FirstRun`, `SetupGuard`);
* the account API key, its rotation and the operations that race it (`ApiKeys`,
  `ApiKeyRotation`, `ApiKeySafety`);
* the resumable thumbnail backfill (`ThumbnailBackfill`, `BackfillResults`,
  `BackfillBoundaries`);
* migration slugs, numbers and file names (`MigrationNames`).

`Schedules` is what the step systems share, `Common` a few general facts.

`dafny verify dfyconfig.toml` checks everything.

## How it is built

Objects that change in place are classes whose methods follow the source statement by
statement. Their contracts tie the new state and the answer to a function of the old state
or of the history of calls, and the results are lemmas about those functions. The two
limiters carry a ghost `log` of their calls: a table is always the replay of its log, so a
lemma about all logs is about every run.

Database code appears twice. A repository class does one call at a time and is proved equal
to `Effect`, the meaning of the operation alone. A step system (`State`, `Event`, `Next`,
`Run`) takes the same calls one statement at a time, with row locks, advisory locks,
uncommitted rows and aborts, and quantifies over every schedule. `SoloRun` and
`SoloSubmission` tie the two: an operation scheduled alone is its `Effect`. For API keys the
tie is total: every schedule is a serial one (`EveryRunIsSerial`). The setup guard and the
login endpoint are tied to their steps too (`ServedAtOnce`, `AttemptAlone`).

## Assumptions

* Times given to one limiter do not decrease. Tokens and rate-limiter times are reals in
  seconds; `limit` is positive, as the configuration check demands. Each call on a limiter
  is atomic.
* The token bucket is the published behaviour of golang.org/x/time/rate for one event:
  refill to at most the burst, reserve one, hand it back when there is a wait. The package
  itself is not part of this model.
* A password whose verification has not ended counts as a guess; one the authenticator gave
  no answer for does not.
* A statement sees the committed tables at the instant its last lock is granted. The query
  that locks the active owners returns exactly the active owners at that instant.
* A database error or a lost connection is an aborted transaction, and may come anywhere.
* Emails reach the tables and the limiter already normalised.
* Advisory locks of different households are different locks.

## Findings

Where the code, its comments and its design part ways, the model follows the code, and the
property is given its exact condition.

* The ten-minute eviction window is safe exactly when `burst <= limit * 600` seconds
  (`EvictionInvisibleIff`, `WindowBoundedIff`). The comment at ratelimiter.go:20-28 takes
  this for granted; `RateLimitConfig.Validate` (internal/platform/config/ratelimit.go:90-105)
  only asks for positive values. Under any other configuration other keys' traffic hands a
  key its burst twice. The same condition decides whether keys are independent and whether
  denied calls are free (`KeysAreIndependentIff`, `DenialsFreeIff`); the reported wait needs
  only one token within the window (`RetryAfterIsTightIff`).
* With at most 10,000 keys about, no configuration lets eviction show (`FewKeysAgree`).
* The cap of 10,000 entries is not a bound on the map of either limiter
  (`MapCanOutgrowItsCap`). A history takes a map over it exactly when at some call more keys
  than that have been active within the stale window (`MapEverExceedsIff`).
* A login is locked out by the sixth wrong password, not the fifth (loginattemptlimiter.go:108
  against its comment at line 8), and six guesses do go through (`GuessBoundIsMet`). Attempts
  that are checked together are all let through: with k at a time a window takes k + 5
  guesses, not six (`RacedGuessBound`, `RacedBoundIsMet`; web.go:96-104).
* The last-active-admin guard counts the active owners of all households together
  (postgres.go:395), while its documentation speaks of the household's only one. It protects
  a household exactly when no other household has members and none joins another
  (`HouseholdKeepsOwnerIff`, `NewcomersUndoIt`).
* A deactivated member can be given a profile, against postgres.go:190-204: the active flag is
  read before the transaction begins. A profile commits for an inactive member exactly when a
  deactivation has committed since that read and no activation after it
  (`InactiveAtCommitIff`), and only a member that has a profile already is safe from this
  (`AlwaysWhileActiveIff`).
* A rotation that read its incumbent before that key was superseded moves the incumbent's
  first expiry when the replacement has been revoked in between (`StaleRotationIff`,
  `ExpiryKeptIff`).
* A photo whose item is gone keeps its row and no join row, so no listing returns it and no
  run reports it; a photo attached to several items can be attempted, and counted, more than
  once (`TwoItemsCountTwice`). The reported failures are sure to be the photos still missing
  exactly when no photo is out of reach and none is attempted twice (`FailedIsMissingIff`);
  on the table, when only every fiftieth photo in reach may belong to several items
  (`AgreementOnTable`).
* An open setup latch admits a request even when asking the member table would fail at that
  instant; it differs from a guard that always asks in nothing else (`LatchRefinesLookupIff`).
* After the largest 64-bit version the next one is negative, and such a file is never counted
  again (`NextIsNewIff`, `VersionRoundTrip`). From 100,000 on the names no longer sort as their
  versions do (`ListsInOrderIff`).

## Model

| member | source | states |
|---|---|---|
| TokenBucket.TakeByLevel | internal/identity/adapter/ratelimiter.go:61-76 | a call is granted exactly when a whole token is there; a denial leaves the level as it was and reports the wait until one is |
| TokenBucket.DenialWait | internal/identity/adapter/ratelimiter.go:61-76 | a denial reports the missing part of a token divided by the configured limit |
| TokenBucket.LevelAfter | internal/identity/adapter/ratelimiter.go:46-53 | a bucket gains limit tokens a second up to the burst, and nothing while the clock runs backwards |
| KeyedRateLimiter.Limiter.constructor | internal/identity/adapter/ratelimiter.go:49-53 | a new limiter knows no key |
| KeyedRateLimiter.Limiter.Allow | internal/identity/adapter/ratelimiter.go:61-76 | the call is appended to the history, its answer is that history's answer, and the map stays the replay of the history |
| KeyedRateLimiter.Limiter.LimiterFor | internal/identity/adapter/ratelimiter.go:84-98 | the key's entry exists and is marked as seen, after a sweep when a new key meets a full map |
| KeyedRateLimiter.Limiter.EvictStale | internal/identity/adapter/ratelimiter.go:103-110 | exactly the entries not seen within the window are gone |
| RateLimiterEviction.AnswersAgree | internal/identity/adapter/ratelimiter.go:61-110 | under a safe configuration every history gets the answers of the map that never forgets |
| RateLimiterEviction.EvictionInvisibleIff | internal/identity/adapter/ratelimiter.go:20-110 | eviction is invisible to every history exactly when burst <= limit * 600 seconds |
| RateLimiterEviction.WindowBoundedIff | internal/identity/adapter/ratelimiter.go:49-110 | no key is granted more than burst + limit * length calls in any interval, across evictions, exactly under the same condition |
| RateLimiterAdmission.GrantedWithinRateIff | internal/identity/adapter/ratelimiter.go:46-110 | a call is granted exactly when that keeps every interval since an earlier call of its key within burst + limit * length, and a denial names the least wait until it would; under a safe configuration, or with at most 10,000 keys under any |
| RateLimiterAdmission.FewKeysAgree | internal/identity/adapter/ratelimiter.go:84-110 | with at most 10,000 keys in the history eviction is invisible under every configuration |
| RateLimiterAnswers.KeysAreIndependent | internal/identity/adapter/ratelimiter.go:37-110 | under a safe configuration dropping every other key's calls changes no answer of a key |
| RateLimiterConditions.KeysAreIndependentIff | internal/identity/adapter/ratelimiter.go:37-110 | keys are independent in every history exactly when burst <= limit * 600 |
| RateLimiterAnswers.DeniedCallsAreFree | internal/identity/adapter/ratelimiter.go:55-76 | under a safe configuration leaving any denied calls out of a history changes no other answer |
| RateLimiterConditions.DenialsFreeIff | internal/identity/adapter/ratelimiter.go:55-110 | denied calls are free in every history exactly when burst <= limit * 600; otherwise one can keep a spent bucket from being swept |
| RateLimiterWaits.RetryAfterIsTight | internal/identity/adapter/ratelimiter.go:55-110 | where a token comes back within the window, after a denial with delay d and until a grant, the key is denied before now + d and granted from then on |
| RateLimiterWaits.RetryAfterIsTightIff | internal/identity/adapter/ratelimiter.go:55-110 | the reported wait is tight in every history exactly when there is a burst and limit * 600 >= 1 |
| RateLimiterAnswers.RetryAfterSecondsIsLeast | internal/identity/adapter/ratelimit.go:151-163 | the header carries the least whole number of seconds, at least one, that waits out the delay |
| RateLimiterAnswers.RateLimit | internal/identity/adapter/ratelimit.go:136-149 | one limiter call per request; a grant passes on, a denial is a 429 with that delay in the header |
| RateLimiterSize.MapExceedsCapIff | internal/identity/adapter/ratelimiter.go:84-110 | the map exceeds its cap exactly when more keys than that were called within the stale window before the newest key came in |
| RateLimiterSize.MapEverExceedsIff | internal/identity/adapter/ratelimiter.go:84-110 | along a history the map exceeds its cap exactly when at some call more keys than that have been called within the stale window, a question about the calls alone |
| RateLimiterSize.MapIsBounded | internal/identity/adapter/ratelimiter.go:84-110 | the map is within its cap, or nothing in it was stale at the newest insertion |
| RateLimiterSize.MapCanOutgrowItsCap | internal/identity/adapter/ratelimiter.go:92-97 | some history makes the map larger than its cap, under any configuration |
| LoginAttemptLimiter.Limiter.constructor | internal/identity/adapter/loginattemptlimiter.go:64-67 | a new limiter knows no email |
| LoginAttemptLimiter.Limiter.Locked | internal/identity/adapter/loginattemptlimiter.go:69-78 | locked exactly when the history leaves a lockout that has not ended |
| LoginAttemptLimiter.Limiter.RecordFailure | internal/identity/adapter/loginattemptlimiter.go:90-113 | the failure joins the history, the map stays its replay, and a lockout is reported exactly on the crossing failure |
| LoginAttemptLimiter.Limiter.RecordSuccess | internal/identity/adapter/loginattemptlimiter.go:115-120 | the login joins the history and clears its email only |
| LoginAttemptLimiter.Limiter.EvictStale | internal/identity/adapter/loginattemptlimiter.go:122-132 | exactly the entries idle for more than the window are gone |
| LoginLockout.LockedMatchesHistory | internal/identity/adapter/loginattemptlimiter.go:69-132 | an email is locked exactly when some failure was the sixth of its run, is less than 15 minutes old, and no login followed it |
| LoginLockout.SweepSparesLockouts | internal/identity/adapter/loginattemptlimiter.go:122-132 | a sweep at any moment ends no lockout that is still running, of any email |
| LoginLockout.ReportedIsSixth | internal/identity/adapter/loginattemptlimiter.go:80-113 | a failure reports a lockout exactly when it is the sixth of its run |
| LoginLockout.OneReportPerLockout | internal/identity/adapter/loginattemptlimiter.go:80-113 | two reports for one email without a login between them are at least 15 minutes apart, even for failures that raced past the check |
| LoginLockout.FewEmailsNeverSwept | internal/identity/adapter/loginattemptlimiter.go:90-132 | while at most 10,000 emails are about, nothing is ever swept: an entry goes only by a login |
| LoginGuesses.Login | internal/identity/adapter/web.go:96-114 | the password is verified exactly when the email is not locked; what is recorded and answered for each verdict |
| LoginGuesses.GuessBound | internal/identity/adapter/loginattemptlimiter.go:51-132 | for attempts made one at a time, any window of length T without a login of the email sees at most 6 * (T / 15 min + 1) verifications, whenever the email last logged in, across evictions and expired lockouts |
| LoginGuesses.GuessBoundIsMet | internal/identity/adapter/loginattemptlimiter.go:106-112 | for every length some history of such attempts meets the bound: six guesses go through as each lockout ends, and then it locks |
| LoginRaces.AttemptAlone | internal/identity/adapter/web.go:96-114 | the check, the verification and the record of an attempt with nothing in between come to what Login does |
| LoginRaces.RacedGuessBound | internal/identity/adapter/web.go:96-114 | with at most k attempts on an email between check and record at a time, any window of length T since its last login sees at most (k + 5) * (T / 15 min + 1) guesses, under every schedule |
| LoginRaces.RacedBoundIsMet | internal/identity/adapter/web.go:96-104 | for every length and every k some schedule lets that many guesses through |
| LoginLimiterSize.MapExceedsCapIff | internal/identity/adapter/loginattemptlimiter.go:90-132 | the map exceeds its cap exactly when more emails than that had a failure, not followed by a login, within a window before the newest email came in |
| LoginLimiterSize.MapEverExceedsIff | internal/identity/adapter/loginattemptlimiter.go:90-132 | along a history the map exceeds its cap exactly when at some failure more emails than that have one outstanding that is at most a window old |
| LoginLimiterSize.MapIsBounded | internal/identity/adapter/loginattemptlimiter.go:90-132 | the map is within its cap, or nothing in it had been idle for a window at the newest insertion |
| LoginLimiterSize.MapCanOutgrowItsCap | internal/identity/adapter/loginattemptlimiter.go:95-100 | a spray of distinct emails at one instant makes the map larger than its cap |
| IdentityTables.NextColorIsLeast | internal/identity/domain/enums.go:86-104 | the colour handed out is worn by no more profiles than any other |
| IdentityTables.FirstLeast | internal/identity/domain/enums.go:86-104 | among the least worn colours the first in canonical order is handed out, used or not |
| IdentityTables.NextColorPrefersUnused | internal/identity/domain/enums.go:86-104 | while a colour is unused, an unused one is handed out, the first in palette order |
| UserRepository.PickColor | internal/identity/domain/enums.go:86-104 | the counting loops compute the least used colour |
| UserRepository.Repository.HasAnyUser | internal/identity/adapter/postgres.go:476-483 | true exactly when there is a member |
| UserRepository.Repository.LockActiveAdminIDs | internal/identity/adapter/postgres.go:395-418 | lists each active owner once and nobody else |
| UserRepository.SingletonById | internal/identity/adapter/postgres.go:420-427 | the check on the list is the question whether the target is the only active owner |
| UserRepository.Repository.LastAdminGuardedUpdate | internal/identity/adapter/postgres.go:435-461 | the update of the guarded change, or a refusal that changes nothing |
| UserRepository.Repository.ExecUserUpdate | internal/identity/adapter/postgres.go:362-375 | changes the one row, or reports that there is none |
| UserRepository.Repository.SetActive | internal/identity/adapter/postgres.go:321-335 | tables and answer of the operation alone, guarded for deactivation only |
| UserRepository.Repository.SetRole | internal/identity/adapter/postgres.go:337-351 | tables and answer of the operation alone, guarded for every role but owner |
| UserRepository.Repository.Create | internal/identity/adapter/postgres.go:71-107 | an active member and its profile, or a duplicate refused with nothing changed |
| UserRepository.Repository.UsedColors | internal/identity/adapter/postgres.go:220-244 | lists each colour as often as the household's profiles wear it |
| UserRepository.Repository.EnsureProfile | internal/identity/adapter/postgres.go:182-265 | an active member without a profile gets the next colour of its household; anyone else is left as is |
| MemberCommits.UpdateStores | internal/identity/adapter/postgres.go:321-461 | SetActive and SetRole store exactly the flag or role given, in that row only; when each is refused, and with what answer |
| MemberCommits.CreateStores | internal/identity/adapter/postgres.go:71-107 | an active member with the household, email and role given and a profile in the colour given, or which refusal |
| MemberCommits.EnsureProfileStores | internal/identity/adapter/postgres.go:182-265 | who gets a profile, and in which colour: the first in canonical order that no other is worn less than in the household |
| MemberCommits.EveryCommitIsItsOwn | internal/identity/adapter/postgres.go:71-461 | over every schedule a transaction that answers Done has committed exactly what it was given, and refusals, aborts and steps in between commit nothing |
| MemberCommits.LockedRowsHold | internal/identity/adapter/postgres.go:377-461 | over every schedule no two transactions hold one member row, and a held row changes only by its holder |
| MemberCommits.EmailsStayUnique | internal/identity/adapter/postgres.go:71-107 | members never come to share an email, whatever creates race |
| MemberTransactions.NextWellFormed | internal/identity/adapter/postgres.go:71-461 | every step keeps profiles tied to members and every transaction in a place its operation can reach |
| MemberTransactions.SoloRun | internal/identity/adapter/postgres.go:71-461 | the statements of an operation, scheduled alone, end and do what the repository call does |
| LastActiveOwner.StepOwnerInv | internal/identity/adapter/postgres.go:384-461 | one statement of any transaction keeps the guard's invariant: an owner is left, and whoever is past the lock holds every owner it saw |
| LastActiveOwner.ActiveOwnerSurvives | internal/identity/adapter/postgres.go:384-461 | there is an active owner in every committed state of every schedule |
| LastActiveOwner.NeverBothPastLock | internal/identity/adapter/postgres.go:389-395 | two guarded updates are never both past the lock step |
| LastActiveOwner.OwnersNeverLostIff | internal/identity/adapter/postgres.go:384-461 | schedules never lose the last active owner exactly when there is one to begin with, since without one the guard locks nothing |
| HouseholdOwners.HouseholdKeepsOwnerIff | internal/identity/adapter/postgres.go:321-395 | while members join no other household, a household is sure to keep an active owner exactly when no other household has members |
| HouseholdOwners.NewcomersUndoIt | internal/identity/adapter/postgres.go:321-395 | where an owner of another household may arrive, some schedule leaves the household without an active owner, whatever the tables |
| ProfileColors.ProfilesArePermanent | internal/identity/adapter/postgres.go:166-265 | no later commit replaces, recolours or removes a profile row, whatever is in flight |
| ProfileColors.ColorsStayBalanced | internal/identity/adapter/postgres.go:175-255 | where EnsureProfile alone provisions the household, its four colours stay within one of each other, whatever races |
| ProfileColors.FirstFourDistinct | internal/identity/adapter/postgres.go:175-255 | the provisioned profiles of a household have pairwise different colours exactly while there are at most four |
| DeactivatedProfiles.AlwaysWhileActiveIff | internal/identity/adapter/postgres.go:182-255 | over every schedule, a member is sure to be active whenever a profile commits for it exactly when it has one already |
| DeactivatedProfiles.OnlyWhileActiveIff | internal/identity/adapter/postgres.go:182-255 | while nobody else becomes an active owner, a member is sure to be active whenever a profile commits for it exactly when it has a profile already or is the only active owner |
| DeactivatedProfiles.InactiveAtCommitIff | internal/identity/adapter/postgres.go:182-255 | once a provisioning has read the member and gone on, the member is inactive at a later moment, its commit included, exactly when a deactivation has committed since and no activation after it |
| FirstRun.Provisioner.constructor | internal/identity/adapter/provision.go:36-44 | holds the member and household tables |
| FirstRun.Provisioner.ResolveHouseholdForSetup | internal/identity/adapter/household_postgres.go:92-114 | founds, adopts or refuses by the number of households |
| FirstRun.Provisioner.CreateFirstAdmin | internal/identity/adapter/provision.go:46-87 | tables and answer of a submission alone |
| FirstRun.FirstAdminIsOwner | internal/identity/adapter/provision.go:46-87 | which answer a submission gets, and that the one member it creates is an active owner under its email in the only household |
| FirstRun.WinnerIsAdmin | internal/identity/adapter/onboarding_web.go:139-148 | under every schedule, rows of another application included, whoever won is an active owner from then on, under the email submitted, in a household that exists |
| FirstRun.AtMostOneWinner | internal/identity/adapter/provision.go:53-87 | of any number of interleaved submissions at most one creates an admin, while another application writes members and households too |
| FirstRun.FirstRunOutcome | internal/identity/adapter/provision.go:46-87 | on an empty member table the tables end as the winner's alone would leave them, and every other submission not cut off reports setup complete, or all report ambiguity and nothing changes |
| FirstRun.SoloSubmission | internal/identity/adapter/provision.go:53-87 | the statements of a submission, scheduled alone, end and do what CreateFirstAdmin does |
| SetupGuard.Guard.constructor | internal/identity/adapter/setup_guard.go:36-42 | the latch starts closed |
| SetupGuard.Guard.Serve | internal/identity/adapter/setup_guard.go:44-63 | the answer its history demands, and a lookup exactly for a request that is not exempt and finds the latch closed |
| SetupGuard.IsSetupExempt | internal/identity/adapter/setup_guard.go:67-75 | exempt exactly under one of the five prefixes |
| SetupGuard.LatchRefinesLookupIff | internal/identity/adapter/setup_guard.go:36-65 | in every interleaving of requests with the member transactions each request is answered as by a guard that asks the member table at that instant, exactly unless the latch spared it a lookup that would have failed |
| SetupGuard.AnswersByLookup | internal/identity/adapter/setup_guard.go:44-95 | in every interleaving: the five exempt prefixes are admitted; otherwise a member admits, a failed lookup is a server error, and without a member the API gets its error, HTMX its redirect and a page the plain one |
| SetupGuard.ServedAtOnce | internal/identity/adapter/setup_guard.go:44-63 | the load, lookup and store of a request taken at once answer it and leave the latch as Serve does |
| SetupGuard.LatchIsNeverStale | internal/identity/adapter/setup_guard.go:37-60 | over every interleaving of requests and member transactions, once the latch is open there are members for ever |
| ApiKeys.Repository.constructor | internal/identity/adapter/api_key_postgres.go:51-58 | holds the table |
| ApiKeys.Repository.Insert | internal/identity/adapter/api_key_postgres.go:163-169 | one new current key, or the constraint that forbids it and no change |
| ApiKeys.Repository.Create | internal/identity/adapter/api_key_postgres.go:60-79 | tables and answer of a create alone |
| ApiKeys.Repository.Rotate | internal/identity/adapter/api_key_postgres.go:118-175 | tables and answer of a rotation alone, the first statement undone when the second fails |
| ApiKeys.Repository.Revoke | internal/identity/adapter/api_key_postgres.go:177-196 | tables and answer of a revocation alone |
| ApiKeys.RotationIsAllOrNothing | internal/identity/adapter/api_key_postgres.go:118-175 | a rotation that commits leaves its replacement as the one current key and the incumbent expiring at the given time; one that does not leaves every row alone |
| ApiKeys.CurrentKeyRotates | internal/identity/adapter/api_key_postgres.go:118-175 | the current key rotates to any fresh id and only to a fresh one |
| ApiKeys.CreateStores | internal/identity/adapter/api_key_postgres.go:60-79 | a key without expiry and revocation, or which of the two refusals |
| ApiKeys.RotateAnswers | internal/identity/adapter/api_key_postgres.go:118-175 | when a rotation commits, does not find its incumbent, or fails on its insert |
| ApiKeys.RevokeStamps | internal/identity/adapter/api_key_postgres.go:177-196 | an unrevoked key is stamped with the time given and keeps its expiry; any other is not found |
| ApiKeys.EffectKeepsIndex | internal/platform/db/migrate/migrations/00005_api_key.sql:49-58 | no operation leaves two current keys |
| ApiKeys.StaleRotationIff | internal/identity/adapter/api_key_postgres.go:149-169 | a rotation naming a superseded key commits exactly when that key is unrevoked and no key is current, and then moves its expiry |
| ApiKeyRotation.EveryRunIsSerial | internal/identity/adapter/api_key_postgres.go:60-196 | committed rows and all answers of any schedule are those of the operations run one at a time in the order they ended |
| ApiKeySafety.AtMostOneCurrent | internal/identity/adapter/api_key_postgres.go:60-196 | at most one current key in every committed state of every schedule |
| ApiKeySafety.RevocationIsFinal | internal/identity/adapter/api_key_postgres.go:177-196 | no later step removes a row or alters a revocation time |
| ApiKeySafety.DoneIsKept | internal/identity/adapter/api_key_postgres.go:60-196 | in every schedule a revocation answered Done has its key stamped with the time it was given from then on; keys created or rotated in stay, and the replaced ones keep an expiry |
| ApiKeySafety.StaleRotationNeedsNoCurrent | internal/identity/adapter/api_key_postgres.go:118-175 | in any schedule only a rotation naming it, at a moment without a current key, changes the expiry of a superseded key |
| ApiKeySafety.StaleCommitNeedsNoCurrent | internal/identity/adapter/api_key_postgres.go:118-175 | in any schedule a rotation naming a superseded key commits only at a moment without a current key, whatever expiry it brings |
| ApiKeySafety.ExpiryKeptWithoutRevocation | internal/identity/adapter/api_key_postgres.go:118-175 | while nothing is revoked there stays a current key and every superseded key keeps its first expiry, under every schedule |
| ApiKeySafety.ExpiryKeptIff | internal/identity/adapter/api_key_postgres.go:149-196 | with revocations allowed, a superseded key is sure to keep its expiry exactly when it is revoked itself |
| ApiKeySafety.SoloRun | internal/identity/adapter/api_key_postgres.go:60-196 | the statements of an operation, scheduled alone, end and do what the repository call does |
| ThumbnailBackfill.PhotoTable.ListMissingThumbnail | internal/media/adapter/photo_postgres.go:321-364 | the first rows past the cursor, in id order, up to the limit |
| ThumbnailBackfill.PhotoTable.SetThumbnailRef | internal/media/adapter/photo_postgres.go:305-319 | records the reference on that photo only, or reports that there is none |
| ThumbnailBackfill.BackfillOne | cmd/backfill-thumbs/main.go:136-175 | a success records a thumbnail, a failure records nothing |
| ThumbnailBackfill.BackfillPage | cmd/backfill-thumbs/main.go:126-132 | every row is attempted, failures are counted, the cursor ends on the last row |
| ThumbnailBackfill.Backfill | cmd/backfill-thumbs/main.go:105-134 | terminates; counts and records what the pages hold, and stops at the first empty page or failed listing with the count so far |
| BackfillResults.EachPhotoTried | cmd/backfill-thumbs/main.go:105-134 | a run attempts every photo in reach and no other, in id order, in at most ceil(N / 50) pages of the N pending rows and an empty one; with one item a photo, every pending photo exactly once in exactly that many pages |
| BackfillResults.RunRecords | cmd/backfill-thumbs/main.go:105-175 | a run attempts photos by join rows of theirs; afterwards a photo has a thumbnail exactly if it had one or an attempt on it worked, and nothing else changes |
| BackfillResults.FailedIsMissingIff | cmd/backfill-thumbs/main.go:105-134 | the reported failures are sure to be the photos still missing exactly when no photo is out of reach of the listing and none is attempted twice |
| BackfillBoundaries.AgreementOnTable | cmd/backfill-thumbs/main.go:105-134 | the reported failures are sure to be the photos still missing exactly when the table holds no photo out of reach and, counting the photos in reach in id order, only every fiftieth belongs to several items |
| BackfillBoundaries.AgreementOnOnePage | cmd/backfill-thumbs/main.go:105-134 | with at most one page of rows they are sure to be exactly when no photo is out of reach and every photo in reach has one item |
| BackfillResults.FailedIsMissingOneItemEach | cmd/backfill-thumbs/main.go:105-134 | with one item a photo, the photos still missing are the failed and those out of reach |
| BackfillResults.RerunTriesTheFailed | cmd/backfill-thumbs/main.go:105-134 | a second run attempts exactly the photos the first tried without success, and where it succeeds leaves just those out of reach; with one item a photo it repeats exactly the failed attempts |
| BackfillResults.TwoItemsCountTwice | internal/media/adapter/photo_postgres.go:329-335 | a photo of two items that fails counts as two failures |
| MigrationNames.SlugShape | cmd/migrate/main.go:136-147 | a slug is words joined by single underscores, keeps the usable characters in order, and is empty only without any |
| MigrationNames.SlugJoinsWords | cmd/migrate/main.go:136-147 | a slug is the words of the lower-case name joined by underscores |
| MigrationNames.SlugsAreFixedPoints | cmd/migrate/main.go:136-147 | the slugs are exactly the names slugging leaves alone, so slugging is idempotent |
| MigrationNames.SlugAlphabet | cmd/migrate/main.go:136-144 | what each character leaves in a slug |
| MigrationNames.NextPlace | cmd/migrate/main.go:154-189 | one more decimal place is worth ten times the number before it and the digit |
| MigrationNames.VersionOfIff | cmd/migrate/main.go:136-194 | a name has a version exactly when it starts with digits and an underscore and 64 bits hold their value |
| MigrationNames.NameShape | cmd/migrate/main.go:154 | the version in five places, or in as many as it takes without a leading zero, then the slug |
| MigrationNames.ListsInOrderIff | cmd/migrate/main.go:154 | a listing of the directory follows the versions exactly below 100,000 |
| MigrationNames.VersionRoundTrip | cmd/migrate/main.go:136-194 | the version formatted into a file name is the one parsed back, and a negative one is not parsed |
| MigrationNames.MigrationsDir.NextVersion | cmd/migrate/main.go:177-201 | one above the highest existing version, one when there is none, wrapping at 64 bits |
| MigrationNames.MigrationsDir.CreateMigration | cmd/migrate/main.go:141-175 | one new file with the next version and the slug, or an error and no change |
| MigrationNames.NextIsNewIff | cmd/migrate/main.go:177-201 | the next version is above every existing one exactly when none is the largest 64-bit integer, wraps to the smallest otherwise, and is 1 when there is none |
| MigrationNames.CreateSucceeds | cmd/migrate/main.go:141-201 | with a version to spare, creating never meets an existing file and raises the highest version by one |
| MigrationNames.CreateNeverOverwrites | cmd/migrate/main.go:141-175 | creating adds one new file or changes nothing; it meets an existing file exactly when the versions have run out and the wrapped name is taken |
| MigrationNames.RepeatedCreatesIncrease | cmd/migrate/main.go:141-201 | any number of creates give the versions following the highest existing one, in order |

## Left out

- Float rounding and nanosecond truncation inside golang.org/x/time/rate, and the gap between reserving and cancelling when two calls on one key overlap.
- The pointer to a bucket that a caller still holds while its entry is swept.
- READ COMMITTED statement snapshots: a query that waited for a lock re-reads the rows it had found, not rows that came to qualify since. The guard is proved under the assumption above about its locking query.
- Deadlock detection, which aborts a transaction; hash collisions of advisory lock keys and the share locks foreign keys take, which only make more statements wait. The schedules here include every interleaving these leave.
- `UserRepository.Update`, which writes the role without the guard and has no callers, and the columns that play no part: names, password hashes, timestamps.
- A member with a profile created by another application without this repository: other applications are taken to write members only.
- LoginGuesses.Login: does not model CSRF, sessions, redirects, logging and the timing of the password hash, because only the order of check, verification and record matters to the limiter.
- SetupGuard.Guard.Serve: does not model the bodies of the refusals, because only which of the three is sent depends on the state.
- ApiKeys.Repository.Rotate: does not model key material, labels and a collision of secret hashes, because no branch depends on them.
- SetupGuard.LatchRefinesLookupIff: does not model a lookup as slower than one instant, because a request is answered by what the table holds when its lookup runs.
- FirstRun.Provisioner.CreateFirstAdmin: does not model the profile row written with the first member, because no step of first-run setup reads profiles.
- The service that picks the incumbent of a rotation: schedules take any incumbent, stale ones included.
- ThumbnailBackfill.BackfillOne: does not model decoding, the object store and the key layout, because an attempt either records a reference or does not.
- Photos added, attached or deleted while a backfill is in progress.
- MigrationNames.MigrationsDir.CreateMigration: does not model writing the template, permissions, path separators and file-system case folding, because the file either appears under its new name or the directory is unchanged.
- Upper-case letters outside ASCII, apart from the two whose lower case is inside it: they are unusable characters before and after.
- HTTP handlers, the resolver chain, device tokens, session revocation and the throttled last-used timestamp: single branches or single statements.
