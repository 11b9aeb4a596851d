# Verification of the Lenso auth plugins

A Dafny model of the repository's transactional auth plugins, of the way they are composed, and of the
schema rewrite in its build scripts. Each plugin keeps rows in PostgreSQL and is called by any number
of concurrent callers, so most results are about whole runs.

Two forms are used side by side.

* **Stores.** `AccountStore`, `DeviceStore`, `FailureStore`, `PasswordStore`, `OtpStore`, `FlowStore`,
  `CodeStore` and `WebSessionPlugin` are classes whose methods update their tables as the source does,
  one request at a time, with the order of checks and the error answers of the source.
* **Interleavings.** The same statements as labelled step machines: a step is one SQL statement or one
  commit, transactions hold row or advisory locks, have private writes, read the latest committed rows
  (READ COMMITTED), and an early return is a rollback. An UPDATE whose WHERE clause matches nothing takes
  no lock. `transaction_timestamp()` is the time of BEGIN, and the column defaults use it. The clock never
  goes back. Theorems quantify over every run, that is, every sequence of states and events that the step
  relation allows (`Runs.IsRun`). Where a bound is shown to be exact, a lemma gives a concrete run or a
  reachable state that attains it.

Cryptography is ideal: digests are injective, only the right key and nonce open a sealed verifier, a
signature under a trusted key exists only if that key's holder made it, and drawn values are fresh.

`dafny verify dfyconfig.toml` checks everything.

## What is proved

1. **Sessions** (`Accounts`, `SessionInterleaving`, `StatusInterleaving`, `RevokeSessionAnswers`, `IdentityRaces`,
   `Assertions`, `RevocationReach`). In every reachable state an effectively disabled subject has no unrevoked session. A session that is ever dead
   stays revoked, its token never works again, and what was minted from it or attenuated from that is
   refused after `lag + ttl`, where `lag` is the longest time from loading the session to reading the clock. That
   bound is exact. Everything a verifier accepts descends from one recorded issue by links that only narrow.
   Identities are bound once, for ever, without orphan subjects.
2. **One-time grants** (`RowTransactions`, `OneTimeGrants`, `OauthFlow`, `OidcProvider`, `OidcKeys`, `IdTokens`, `FederatedLogin`). Any
   interleaving of lock-one-row transactions is a serial history. In such histories flows and codes are
   redeemed once, for exactly what was stored. Flow store, provider and client together, both stores
   interleaved statement by statement, bind each completed login to one flow and one authorization made for
   each other, and an honest login can always be carried through.
3. **Limiters** (`LoginFailures`, `FailureWindow`, `PasswordLogin`, `ConcurrentLogins`, `LimiterLocks`, `OtpChallenges`,
   `OtpQuota`). At every instant, whatever the lag, the window that ends then holds at most `max_failures`
   failures of a key since its last clear, and at most as many wrong-password answers of logins that run
   beside each other; refinement of the unpruned log; draining of a backlog; OTP quota and cooldown; OTP
   attempts and single success; absence of deadlock.
4. **Primary device** (`Devices`, `DeviceInterleaving`). At most one primary per subject, argued from nested lock sets and
   not from a unique index.
5. **Schema normaliser** (`SchemaNormalizer`). The rewrite is idempotent and keeps what a document accepts,
   against an independent evaluator of the keywords in use.
6. **Smaller pieces** (`Pagination`, `WebSession`, `PhoneNumbers`).

## Where the code and the expectation differ

* **Failure window.** A record is stamped at BEGIN and inserted later, while others prune. The window that ends
  now always keeps the limit (`FailureWindow.NowBounded`), and so does every window over the rows still stored
  (`FailureWindow.TableAlwaysBounded`). An interval that lies in the past can still gain late records: over the
  full record of failures, such intervals are bounded exactly up to length `window - lag`
  (`FailureWindow.WindowBoundIff`, `FailureWindow.LateRecordOverflows`).
* **OTP cooldown.** The cooldown is measured from a clock reading before BEGIN, the stamp is BEGIN. Stamps of
  one phone are `cooldown - lag` apart and no more (`OtpQuota.SpacingIff`).
* **Revocation.** `authenticate` loads the session before it reads the clock, so the reach of a revocation
  is `lag + ttl`, not `ttl` (`SessionInterleaving.ReachIff`).
* **`revoke_session`** is a read and a later update: callers that overlap on a session are all told that they
  revoked it (`SessionInterleaving.SessionRevokedTwice`). At most one is told so exactly when no two overlap
  (`RevokeSessionAnswers.SessionRevokedOnceIff`). `revoke_credential` tells at most one in any run.
* **Operator disable** promises to disable an identity, but leaves a stored disable alone even if it has
  lapsed (`Accounts.OperatorDisableTakesIff`).
* **Web callback.** The return-target rule of the web plugin lets control characters other than ASCII white
  space through. Building the redirect then fails after the session was issued and nothing revokes it. This
  happens exactly for such targets, and the flow store's own rule excludes them (`WebSession.WebSessionPlugin.Finish`,
  `WebSession.ControlPassesLocalRule`). A login completion that fails at run time after it issued its session
  also leaves that session live, with no one holding its token; the callback reports the failure
  (`WebSession.WebSessionPlugin.Callback`).
* **Schema rewrite.** Property names that imitate `additionalProperties: true` beside an empty `properties`
  are rewritten as if they were keywords (`SchemaNormalizer.ClosedObjectKeptIff`), so are names of definitions
  (`SchemaNormalizer.DefinitionsKeptIff`), and constants and enumerated objects are rewritten like schemas
  (`SchemaNormalizer.ConstantKeptIff`, `SchemaNormalizer.EnumKeptIff`).

## Model

| member | source | states |
|---|---|---|
| `SessionInterleaving.NoLiveSessionWhileDisabled` | crates/lenso-auth-account-plugin/src/storage.rs:142-185 | in every state of every interleaving of issues, status changes, operator disables, revocations, authentications and passing time, each session of an effectively disabled subject is revoked |
| `SessionInterleaving.StepKeepsInv` | crates/lenso-auth-account-plugin/src/lib.rs:511-551 | the lock argument: locks, checks made under them, rows in hand and tables fit together after every statement |
| `SessionInterleaving.RunPreserves` | crates/lenso-auth-account-plugin/src/storage.rs:187-224 | along any run a session keeps everything but its revocation, and a revocation keeps its time |
| `SessionInterleaving.DeadStaysRevoked` | crates/lenso-auth-account-plugin/src/lib.rs:650-699 | a session once revoked, or whose subject was once disabled, is revoked in every later state |
| `SessionInterleaving.DeadTokenNeverUsable` | crates/lenso-auth-account-plugin/src/storage.rs:226-245 | its token never passes the load checks again, even after reactivation or a lapsed disable |
| `SessionInterleaving.NoLoadAfterDeath` | crates/lenso-auth-account-plugin/src/lib.rs:666-677 | no authentication loads a session after the moment it was dead |
| `SessionInterleaving.MintsAlwaysKnown` | crates/lenso-auth-account-plugin/src/lib.rs:678-689 | every minted assertion belongs to a stored session and does not outlive its expiry |
| `SessionInterleaving.MintedBeforeReach` | crates/lenso-auth-account-plugin/src/lib.rs:650-699 | every assertion minted from a session dead at r expires by r + lag + ttl |
| `SessionInterleaving.LateMint` | crates/lenso-auth-account-plugin/src/lib.rs:666-699 | a run in which an assertion lasts until exactly r + lag + ttl |
| `SessionInterleaving.ReachIff` | crates/lenso-auth-account-plugin/src/lib.rs:650-699 | a bound on the reach holds in all runs if and only if it is at least lag + ttl |
| `SessionInterleaving.CredentialRevokedOnce` | crates/lenso-auth-account-plugin/src/storage.rs:213-224 | in any run at most one `revoke_credential` per credential answers that it changed something |
| `SessionInterleaving.SessionRevokedTwice` | crates/lenso-auth-account-plugin/src/storage.rs:187-211 | a run in which two `revoke_session` calls both answer that they changed the same session |
| `RevokeSessionAnswers.SessionRevokedOnce` | crates/lenso-auth-account-plugin/src/storage.rs:187-211 | if no two callers are ever between the read and the update of one session, at most one answer ever claims to have revoked it |
| `RevokeSessionAnswers.OverlapAllAnsweredTrue` | crates/lenso-auth-account-plugin/src/storage.rs:200-210 | of callers that are pending on a session at once, all that have since updated were told that they revoked it |
| `RevokeSessionAnswers.SessionRevokedOnceIff` | crates/lenso-auth-account-plugin/src/storage.rs:187-211 | with no caller left pending, at most one was told so if and only if no two callers ever overlapped on the session |
| `Accounts.OperatorDisableTakesIff` | crates/lenso-auth-account-plugin/src/operator.rs:39-53 | the operator's disable holds from now on for good iff the stored status was active or disabled without end |
| `Accounts.DisableTakes` | crates/lenso-auth-account-plugin/src/lib.rs:511-523 | a request to disable leaves the row disabled with its reason and end, effectively so exactly before the end; it changes nothing iff the row was so already |
| `Accounts.ActivateTakes` | crates/lenso-auth-account-plugin/src/lib.rs:511-523 | a request to activate leaves the row active without reason or end, never effectively disabled; it changes nothing iff the row was so already |
| `StatusInterleaving.DisableBarsIssue` | crates/lenso-auth-account-plugin/src/storage.rs:142-185 | over all runs, between a committed disable and the next committed change of its subject no issue commits that began before the end of the disable |
| `StatusInterleaving.RowBarsIssue` | crates/lenso-auth-account-plugin/src/storage.rs:142-165 | while a row says disabled, only an issue that began at or after its end commits |
| `StatusInterleaving.DisableFoundDone` | crates/lenso-auth-account-plugin/src/lib.rs:523-523 | a disable whose update hits nothing found the row of an existing subject as it asks for |
| `StatusInterleaving.ActivationAdmits` | crates/lenso-auth-account-plugin/src/lib.rs:511-551 | after a committed activation, until the next committed change, no issue is refused for the status |
| `StatusInterleaving.ChangeServed` | crates/lenso-auth-account-plugin/src/lib.rs:511-551 | from any reachable state a change that nothing hinders goes through and leaves the tables the store leaves |
| `Accounts.AccountStore.EnsureIdentity` | crates/lenso-auth-account-plugin/src/storage.rs:75-129 | returns the bound subject, creates subject and binding together exactly for an unbound key, and reports the effective status |
| `Accounts.AccountStore.IssueSession` | crates/lenso-auth-account-plugin/src/storage.rs:142-185 | inserts the session iff the subject exists and is effectively active; otherwise says which and changes nothing |
| `Accounts.AccountStore.ChangeSubject` | crates/lenso-auth-account-plugin/src/lib.rs:511-551 | not-found, changed and unchanged answers; the row exactly as asked for; the time of every revocation; a disable leaves no live session; no disabled subject gains one |
| `Accounts.AccountStore.DisableSubject` | crates/lenso-auth-account-plugin/src/operator.rs:39-53 | true iff the stored status was active, and then disabled at all later times; sessions are revoked either way |
| `Accounts.AccountStore.RevokeSession` | crates/lenso-auth-account-plugin/src/storage.rs:187-211 | served alone: answers whether the session was live and revokes exactly it |
| `Accounts.AccountStore.RevokeCredential` | crates/lenso-auth-account-plugin/src/storage.rs:213-224 | three-valued answer and the whole new table: exactly the live session of the digest is revoked |
| `Accounts.AccountStore.Authenticate` | crates/lenso-auth-account-plugin/src/lib.rs:666-699 | unknown, revoked or disabled, expired, or the stored session itself with an expiry no later than its own and the ttl |
| `IdentityRaces.OneSubjectPerIdentity` | crates/lenso-auth-account-plugin/src/storage.rs:75-129 | all calls ever answered for an identity name its one subject, one of them exactly reported created, and the read after a lost race finds its row |
| `IdentityRaces.CreatedExactlyWhenBound` | crates/lenso-auth-account-plugin/src/storage.rs:105-128 | the number of created answers for a key is one if it is bound and zero otherwise |
| `IdentityRaces.BoundForever` | crates/lenso-auth-account-plugin/src/storage.rs:105-107 | a committed binding names the same subject in every later state |
| `IdentityRaces.NoOrphans` | crates/lenso-auth-account-plugin/src/storage.rs:108-125 | subjects and bindings are equal in number and the bound subjects are all subjects |
| `IdentityRaces.EnsureServed` | crates/lenso-auth-account-plugin/src/storage.rs:75-129 | from any reachable state a call that nothing hinders is answered, and writes, as the store does |
| `IdentityRaces.InvAlways` | crates/lenso-auth-account-plugin/src/storage.rs:75-129 | claims in flight, minted ids, the pairing and the answers fit in every reachable state |
| `Assertions.IssuedVerifiesIff` | crates/lenso-auth-sdk/src/lib.rs:366-394 | a fresh assertion is accepted exactly for its audience and its half-open validity |
| `Assertions.AttenuatedVerifiesIff` | crates/lenso-auth-sdk/src/lib.rs:396-424 | an attenuated one is accepted exactly for its own audience and expiry, and only where the parent is |
| `Assertions.CarriedIff` | crates/lenso-auth-sdk/src/lib.rs:223-254 | attaching and reading back returns the same assertion iff its wire form is complete |
| `Assertions.AttenuateIff` | crates/lenso-auth-sdk/src/lib.rs:396-424 | attenuation succeeds iff the parent is signed by this authority, the audience is within its own and the expiry after its issue and no later than its own; what the result holds, field by field |
| `Assertions.AttenuateErrors` | crates/lenso-auth-sdk/src/lib.rs:403-413 | which failure each refused attenuation names, in order |
| `Assertions.FromContextIff` | crates/lenso-auth-sdk/src/lib.rs:239-254 | a context yields an assertion iff its value is complete and its seal agrees in issuer, audience and proof |
| `Assertions.VerifyForErrors` | crates/lenso-auth-sdk/src/lib.rs:473-516 | acceptance and each refusal, for an arbitrary assertion |
| `Assertions.MadeAgrees` | crates/lenso-auth-sdk/src/lib.rs:171-192 | in every signing history the parsed instants agree with the signed strings |
| `Assertions.VerifiedSound` | crates/lenso-auth-sdk/src/lib.rs:498-516 | a verified proof under a trusted key carries a sound line of descent |
| `Assertions.HistorySound` | crates/lenso-auth-sdk/src/lib.rs:396-424 | every signature of every history has a line of narrowing links that ends in a recorded issue |
| `Assertions.AcceptedDescends` | crates/lenso-auth-sdk/src/lib.rs:473-496 | whatever is accepted descends from one issue: same identity, claims and issue time, narrower audience, no later expiry, provenance naming the parent's proof at each link |
| `RevocationReach.AcceptedWithinReach` | crates/lenso-auth-account-plugin/src/lib.rs:650-699 | an accepted assertion, attenuated or not, speaks for a session of the run, and is accepted before lag + ttl after any state in which that session is dead |
| `RevocationReach.MintsAreHistories` | crates/lenso-auth-account-plugin/src/lib.rs:690-699 | the mints of any run form a signing history the previous result applies to |
| `RowTransactions.RunsAreSerial` | crates/lenso-auth-oauth-flow-plugin/src/lib.rs:141-165 | every interleaving of lock-read-decide-write-commit transactions has the rows and answers of a serial history |
| `RowTransactions.StepKeepsInv` | crates/lenso-auth-phone-plugin/src/lib.rs:382-415 | a transaction past its read owns its row, unchanged since, until it ends |
| `OneTimeGrants.RowTellsGrants` | crates/lenso-auth-oauth-flow-plugin/src/lib.rs:146-165 | a row is marked used iff its history redeemed it, exactly once, and until then is as created |
| `OneTimeGrants.GrantFromCreated` | crates/lenso-auth-oidc-plugin/src/lib.rs:365-386 | each redemption is decided on the row as it was created |
| `OneTimeGrants.GrantedOnce` | crates/lenso-auth-oidc-plugin/src/lib.rs:365-386 | no two requests redeem the same row |
| `OauthFlow.CustodyKept` | crates/lenso-auth-oauth-flow-plugin/src/lib.rs:87-190 | a redeemed state decodes, is redeemed once, by its provider, before expiry, and returns the verifier, nonce, target and expiry its create stored |
| `OauthFlow.RedeemableIff` | crates/lenso-auth-oauth-flow-plugin/src/lib.rs:131-165 | a consume succeeds iff the flow exists, is unredeemed, unexpired and the provider's own |
| `OauthFlow.RejectionChangesNothing` | crates/lenso-auth-oauth-flow-plugin/src/lib.rs:144-157 | a rejected consume leaves every row as it was |
| `OauthFlow.InterleavedConsumptions` | crates/lenso-auth-oauth-flow-plugin/src/lib.rs:141-165 | under any interleaving at most one consume per state gets through, and it decodes |
| `OauthFlow.FlowStore.Create` | crates/lenso-auth-oauth-flow-plugin/src/lib.rs:87-130 | which error in which order, the response, and the row stored |
| `OauthFlow.FlowStore.ConsumeState` | crates/lenso-auth-oauth-flow-plugin/src/lib.rs:131-190 | the method form of the consume decision, with its whole new table |
| `OidcProvider.GrantAnswersAuthorize` | crates/lenso-auth-oidc-plugin/src/lib.rs:365-390 | a granted exchange belongs to one authorize for that client, redirect target and verifier, is the only one for its code, and yields its subject, scope and nonce |
| `OidcProvider.ExchangeableIff` | crates/lenso-auth-oidc-plugin/src/lib.rs:365-390 | a code is granted iff it stands unredeemed and unexpired, for its client and redirect target, with any verifier whose S256 is its challenge, with or without a nonce |
| `OidcProvider.InterleavedExchanges` | crates/lenso-auth-oidc-plugin/src/lib.rs:365-386 | under any interleaving a code is granted at most once |
| `OidcProvider.CodeStore.Authorize` | crates/lenso-auth-oidc-plugin/src/lib.rs:287-349 | issues a code iff caller, types, client, redirect, scope, challenge and subject status all pass, and stores its row; which error each failed check gives, in order |
| `OidcProvider.CodeStore.ExchangeCode` | crates/lenso-auth-oidc-plugin/src/lib.rs:350-436 | the answers in order, the code spent before the session is issued, and the token minted |
| `OidcKeys.Validate` | crates/lenso-auth-oidc-plugin/src/lib.rs:79-96 | accepts a key set iff it has 1 to 16 valid keys, distinct ids, a valid key id and exactly one selected key |
| `OidcKeys.ValidSetIff` | crates/lenso-auth-oidc-plugin/src/lib.rs:79-110 | with distinct ids, selection means the key id is present, or there is a single key |
| `OidcKeys.SelectedIff` | crates/lenso-auth-oidc-plugin/src/lib.rs:98-110 | the filter selects a key iff exactly one position is allowed, and it is the key there |
| `OidcKeys.OddIff` | crates/lenso-auth-oidc-plugin/src/lib.rs:127-141 | the test of the last byte is the test of the number |
| `IdTokens.ValidateIdToken` | crates/lenso-auth-oidc-client-plugin/src/lib.rs:422-491 | the search for a first matching key and no second accepts exactly the acceptable tokens; issuer, audience, nonce, times and key of an accepted one |
| `IdTokens.AcceptedIff` | crates/lenso-auth-oidc-client-plugin/src/lib.rs:422-509 | for an arbitrary token and key set, acceptance iff header, the one key with its id, issuer, audience with its authorized party, nonce, times with 30 seconds of skew and subject are all in order |
| `IdTokens.SignedIff` | crates/lenso-auth-oidc-client-plugin/src/lib.rs:445-458 | which key vouches for a token: the only one with its id, of a kind that may verify RS256, and the one that signed |
| `IdTokens.AudienceIff` | crates/lenso-auth-oidc-client-plugin/src/lib.rs:471-483 | addressed to this client: alone, or in a list with it as the authorized party |
| `IdTokens.ForeignClientRefuses` | crates/lenso-auth-oidc-client-plugin/src/lib.rs:462-484 | a token minted by a provider is refused by every client of another issuer or id, whatever nonce and keys |
| `IdTokens.PublishedSigns` | crates/lenso-auth-oidc-client-plugin/src/lib.rs:445-455 | the provider's published keys vouch for its tokens iff a key id is configured |
| `IdTokens.IdsAreSubs` | crates/lenso-auth-oidc-client-plugin/src/lib.rs:465-472 | every subject the directory can authorize passes the client's subject rules |
| `IdTokens.MintAcceptedIff` | crates/lenso-auth-oidc-plugin/src/lib.rs:415-426 | a minted token is accepted iff the key id is configured, the nonce is the expected one and the clock is within skew of its validity, and yields the authorized subject |
| `FederatedLogin.LoginBindsFlowAndCode` | crates/lenso-auth-oidc-client-plugin/src/lib.rs:210-341 | a completed login's code was authorized with the S256 of its flow's verifier and its nonce, for its client and redirect; subject, account and return target are theirs |
| `FederatedLogin.OneLoginPerGrant` | crates/lenso-auth-oidc-client-plugin/src/lib.rs:210-341 | no two completed logins share a state or a code, whatever else runs in either store |
| `FederatedLogin.HonestLoginCompletes` | crates/lenso-auth-oidc-client-plugin/src/lib.rs:144-341 | from any reachable world an honest login, a first one of its identity included, can be carried through to completion |
| `FederatedLogin.InvAlways` | crates/lenso-auth-oidc-client-plugin/src/lib.rs:210-341 | both interleaved stores stay serial and every login stands on its own consume and exchange |
| `Pkce.RandomIsValid` | crates/lenso-auth-oidc-client-plugin/src/lib.rs:664-680 | drawn verifiers and nonces pass the client's checks |
| `FailureWindow.NowBounded` | crates/lenso-auth-password-plugin/src/storage.rs:78-109 | at every instant of every run, whatever the lag, at most max failures of a key recorded since its last clear lie in the window that ends then |
| `FailureWindow.LogAlwaysBounded` | crates/lenso-auth-password-plugin/src/storage.rs:78-109 | past intervals: over all interleavings at most max failures recorded since a key's last clear lie in any interval, wherever it lies, of length up to window - lag |
| `FailureWindow.TableAlwaysBounded` | crates/lenso-auth-password-plugin/src/storage.rs:78-109 | whatever the lag, no window of the configured length holds more than max rows of a key |
| `FailureWindow.LateRecordOverflows` | crates/lenso-auth-password-plugin/src/storage.rs:78-100 | a run with one failure too many in a past interval longer than window - lag |
| `FailureWindow.WindowBoundIff` | crates/lenso-auth-password-plugin/src/storage.rs:78-109 | the bound on recorded failures in intervals anywhere holds over all runs iff length + lag fits in the window |
| `FailureWindow.CountsAsFullLog` | crates/lenso-auth-password-plugin/src/storage.rs:49-76 | from the highest cut on the pruned table holds exactly the log's failures |
| `FailureWindow.CurrentEdgeAnswers` | crates/lenso-auth-phone-plugin/src/lib.rs:763-783 | at the current window edge a check counts what an unpruned log would |
| `FailureWindow.RefusedIff` | crates/lenso-auth-password-plugin/src/storage.rs:64-75 | at an edge no cut has passed, a check or record finds the limit reached if and only if it is on record |
| `FailureWindow.AlwaysWellformed` | crates/lenso-auth-password-plugin/src/storage.rs:149-189 | nothing leaves the table before the highest cut has passed it; keys in use are locked |
| `LoginFailures.PruneTakes` | crates/lenso-auth-password-plugin/src/storage.rs:175-189 | a global prune takes min(256, stale) rows and no fresh one |
| `LoginFailures.PruneTakesOldest` | crates/lenso-auth-password-plugin/src/storage.rs:179-181 | what a prune takes is stale and before every stale row it leaves, in time and then in row order |
| `LoginFailures.BacklogDrains` | crates/lenso-auth-password-plugin/src/storage.rs:175-189 | a backlog of n stale rows is gone after k prunes iff n is at most 256 k, and fresh rows survive |
| `LoginFailures.FailureStore.PruneStale` | crates/lenso-auth-phone-plugin/src/lib.rs:861-874 | takes the oldest stale rows, a batch at most, and answers how many |
| `LoginFailures.FailureStore.FailureLimitReached` | crates/lenso-auth-password-plugin/src/storage.rs:49-76 | answers for the rows before its own pruning, which touches only rows before the edge |
| `LoginFailures.FailureStore.RecordFailureIfAllowed` | crates/lenso-auth-password-plugin/src/storage.rs:78-109 | records iff fewer than max recent rows, and never exceeds max |
| `LoginFailures.FailureStore.ClearFailures` | crates/lenso-auth-password-plugin/src/storage.rs:111-132 | removes exactly the rows of the key |
| `PasswordLogin.PasswordStore.Login` | crates/lenso-auth-password-plugin/src/lib.rs:328-398 | served one login at a time: refused iff the answers so far show max wrong passwords in the window since the last right one, or the workers are saturated; otherwise the stored hash decides the answer |
| `PasswordLogin.PasswordStore.Register` | crates/lenso-auth-password-plugin/src/storage.rs:17-27 | never replaces a credential |
| `ConcurrentLogins.WrongAnswersBounded` | crates/lenso-auth-password-plugin/src/lib.rs:340-385 | over all interleavings of whole logins, at every instant at most max wrong-password answers to a key, since its last right password, are stamped in the window that ends then |
| `ConcurrentLogins.RefusedOnRecord` | crates/lenso-auth-password-plugin/src/lib.rs:346-380 | a login refused at its check, or only when its failure is to be recorded, has max wrong answers on record since its own edge |
| `ConcurrentLogins.AnswersAlwaysTrue` | crates/lenso-auth-password-plugin/src/lib.rs:356-398 | stored credentials were registered, right passwords are answered as their credential says and never counted, counted ones were found wrong |
| `ConcurrentLogins.LoggedInWasRegistered` | crates/lenso-auth-password-plugin/src/lib.rs:351-398 | whoever was logged in presented the password that an earlier registration of that key stored for that subject |
| `ConcurrentLogins.CountedWasWrong` | crates/lenso-auth-password-plugin/src/lib.rs:356-380 | each wrong-password answer goes back to a verification that found the key unregistered or with the hash of another password |
| `ConcurrentLogins.LoginServed` | crates/lenso-auth-password-plugin/src/lib.rs:328-398 | from any reachable quiet state a login goes through and is answered as the store answers it |
| `ConcurrentLogins.AlwaysTallied` | crates/lenso-auth-password-plugin/src/storage.rs:78-132 | the failures on record are the wrong answers given since each key's last right password |
| `ConcurrentLogins.LimiterReached` | crates/lenso-auth-password-plugin/src/lib.rs:328-398 | the limiter under any run of logins is a reachable limiter, so its theorems apply |
| `PasswordLogin.CountsAfterSweep` | crates/lenso-auth-password-plugin/src/storage.rs:162-189 | pruning keeps the rows in step with the answers given |
| `PasswordLogin.CountsAfterRecord` | crates/lenso-auth-password-plugin/src/lib.rs:366-380 | a recorded row and an `InvalidCredentials` answer go together |
| `LimiterLocks.WaitingLowersRank` | crates/lenso-auth-password-plugin/src/storage.rs:149-189 | whoever is waited for has a lower rank |
| `LimiterLocks.NeverDeadlocked` | crates/lenso-auth-phone-plugin/src/lib.rs:715-885 | no group of keyed transactions, pruners and reservations is ever deadlocked |
| `LimiterLocks.NamesApart` | crates/lenso-auth-phone-plugin/src/lib.rs:719-724 | the three families of lock names never coincide |
| `OtpChallenges.RowCountsHistory` | crates/lenso-auth-phone-plugin/src/lib.rs:382-415 | the row is the challenge as created, its attempts the lesser of the cap and the wrong guesses so far, counted from the guesses alone, consumed once one succeeded |
| `OtpChallenges.AnswersByHistory` | crates/lenso-auth-phone-plugin/src/lib.rs:382-415 | every answer, told from the guesses made and the challenge as created: the cap stops all guesses, then expiry, then the code decides |
| `OtpChallenges.WrongGuessAnswers` | crates/lenso-auth-phone-plugin/src/lib.rs:398-408 | a wrong guess answers too many attempts iff it is the last the cap allows or a later one |
| `OtpChallenges.AttemptsAndSuccessBounded` | crates/lenso-auth-phone-plugin/src/lib.rs:382-415 | stored attempts stay within the cap and at most one guess succeeds; at the cap or after the success none succeeds |
| `OtpChallenges.SucceedsIff` | crates/lenso-auth-phone-plugin/src/lib.rs:387-413 | a guess succeeds iff the challenge stands unused, fewer wrong guesses than the cap were made, it is in time and the code is its own |
| `OtpChallenges.InterleavedVerifications` | crates/lenso-auth-phone-plugin/src/lib.rs:382-415 | the row told from its history, under any interleaving of verifications |
| `OtpChallenges.OtpStore.Reserve` | crates/lenso-auth-phone-plugin/src/lib.rs:715-761 | rate limit first, then the newest challenge's cooldown, then the insert |
| `OtpChallenges.OtpStore.VerifyOtp` | crates/lenso-auth-phone-plugin/src/lib.rs:366-415 | malformed, unknown, used, capped or expired challenges change nothing; otherwise the verdict and the exact new row |
| `OtpQuota.QuotaAlways` | crates/lenso-auth-phone-plugin/src/lib.rs:715-761 | whatever the commit order, each window of each source, missing address included, holds at most the allowed live challenges |
| `OtpQuota.LateStampsComeClose` | crates/lenso-auth-phone-plugin/src/lib.rs:300-357 | a run with two challenges of one phone only cooldown - lag apart |
| `OtpQuota.SpacingIff` | crates/lenso-auth-phone-plugin/src/lib.rs:738-747 | live challenges of a phone are always gap apart iff gap is at most cooldown - lag (or zero) |
| `OtpQuota.LimitsAlwaysKept` | crates/lenso-auth-phone-plugin/src/lib.rs:715-761 | quota, spacing, locks and times fit in every reachable state |
| `OtpQuota.ReserveServed` | crates/lenso-auth-phone-plugin/src/lib.rs:715-761 | what the store leaves when a reservation is admitted alone is a state the interleaved machine reaches |
| `PhoneNumbers.NormalizePhone` | crates/lenso-auth-phone-plugin/src/lib.rs:887-898 | the loop computes the normal form: digits, separators dropped, plus only in front |
| `PhoneNumbers.NormalFormIff` | crates/lenso-auth-phone-plugin/src/lib.rs:887-898 | a text is its own normal form iff it is a plus and 8 to 15 digits |
| `PhoneNumbers.NormalizedTwice` | crates/lenso-auth-phone-plugin/src/lib.rs:887-898 | normalising twice changes nothing |
| `DeviceInterleaving.OnePrimaryAlways` | crates/lenso-auth-device-plugin/src/lib.rs:168-206 | in every reachable state each subject has at most one primary device |
| `DeviceInterleaving.SectionsExclusiveAlways` | crates/lenso-auth-device-plugin/src/lib.rs:168-206 | two requests of one subject that found their device are never both between their locks and their commit |
| `DeviceInterleaving.SectionExclusive` | crates/lenso-auth-device-plugin/src/lib.rs:172-178 | nested lock sets that both hold a target share a row |
| `DeviceInterleaving.RunsAreSerial` | crates/lenso-auth-device-plugin/src/lib.rs:168-206 | the committed table changes only by whole requests and whole observations |
| `Devices.AssignedPrimaries` | crates/lenso-auth-device-plugin/src/lib.rs:179-205 | the primaries a request leaves behind; a missing target changes nothing |
| `Devices.AssignedRows` | crates/lenso-auth-device-plugin/src/lib.rs:186-205 | trust, primary and update time of the target as asked for, and every other row as it was but for primary |
| `Devices.ObservedRows` | crates/lenso-auth-device-plugin/src/lib.rs:105-105 | what an observation writes to its row, column by column, and to no other |
| `DeviceInterleaving.TrustedIffAsked` | crates/lenso-auth-device-plugin/src/lib.rs:168-206 | over all runs a device is trusted iff the last committed request for it asked for trust |
| `DeviceInterleaving.ObservationAnswers` | crates/lenso-auth-device-plugin/src/lib.rs:105-109 | and an observation of it says so |
| `DeviceInterleaving.RequestServed` | crates/lenso-auth-device-plugin/src/lib.rs:168-206 | from any reachable quiet state a request goes through and leaves the table the store leaves |
| `Devices.AssignedKeepsOnePrimary` | crates/lenso-auth-device-plugin/src/lib.rs:186-205 | a whole request keeps at most one primary per subject |
| `Devices.ObservedKeepsTrust` | crates/lenso-auth-device-plugin/src/lib.rs:105-105 | observing keeps trust, primary and creation time of every row |
| `Devices.DeviceStore.SetDeviceTrust` | crates/lenso-auth-device-plugin/src/lib.rs:168-206 | not found changes nothing; otherwise trust, primary and update time of the target as asked for, every other column and row as it was, and exactly one primary when asked for |
| `Devices.DeviceStore.Observe` | crates/lenso-auth-device-plugin/src/lib.rs:91-112 | the whole new table, and what created and trusted mean |
| `SchemaNormalizer.NormalizeSchema` | crates/lenso-capability-account-admin/build.rs:49-81 | the loops over members and items compute the specified rewrite |
| `SchemaNormalizer.NormalizedTwice` | crates/lenso-capability-account-admin/build.rs:49-81 | a second rewrite changes nothing |
| `SchemaNormalizer.KeptIffPlain` | crates/lenso-capability-account-admin/build.rs:49-81 | the rewrite leaves a value alone iff no object in it has either removable pair |
| `SchemaNormalizer.RemovedIff` | crates/lenso-capability-account-admin/build.rs:54-70 | which members an object loses, told from the object as it was; all others stay, rewritten |
| `SchemaNormalizer.MeaningKept` | crates/lenso-capability-account-admin/build.rs:49-81 | a schema accepts a value after the rewrite iff it did before, at every reference depth |
| `SchemaNormalizer.DocumentKept` | crates/lenso-capability-account-admin/build.rs:37-47 | so does a whole well-shaped document |
| `SchemaNormalizer.ClosedObjectKeptIff` | crates/lenso-capability-account-admin/build.rs:54-63 | a closed object keeps its meaning iff its property names do not imitate the removed pair |
| `SchemaNormalizer.ImitatingNameRejected` | crates/lenso-capability-account-admin/build.rs:54-63 | a value accepted before and rejected after, for every imitating pair |
| `SchemaNormalizer.ConstantKeptIff` | crates/lenso-capability-account-admin/build.rs:49-81 | a constant keeps its meaning iff no object in it has either removable pair |
| `SchemaNormalizer.EmptyOnlyFromEmpty` | crates/lenso-capability-account-admin/build.rs:56-61 | only the empty object becomes the empty object |
| `SchemaNormalizer.EnumKeptIff` | crates/lenso-capability-account-admin/build.rs:49-81 | an enumeration keeps its meaning iff no object in its items has either removable pair |
| `SchemaNormalizer.DefinitionsKeptIff` | crates/lenso-capability-account-admin/build.rs:54-63 | every definition can be referred to as before iff the names of the definitions do not imitate the removed pair |
| `SchemaNormalizer.ImitatingDefinitionLost` | crates/lenso-capability-account-admin/build.rs:54-63 | for every imitating pair, a document that refers to the lost definition and no longer accepts what it did |
| `Pagination.ListSubjects` | crates/lenso-auth-account-plugin/src/lib.rs:399-476 | forbidden, bad limit or cursor, or the page with all columns of its rows in order and a cursor the next request may use |
| `Pagination.PageFacts` | crates/lenso-auth-account-plugin/src/lib.rs:419-420 | a page ascends beyond its cursor and omits only rows past a full page |
| `Pagination.WalkListsAll` | crates/lenso-auth-account-plugin/src/lib.rs:461-474 | following cursors lists a table in order, each row once, and ends within n / limit + 1 pages |
| `Pagination.WalkComplete` | crates/lenso-auth-account-plugin/src/lib.rs:567-645 | rows present throughout are all listed, whatever is inserted between pages |
| `Pagination.WalkAscends` | crates/lenso-auth-account-plugin/src/lib.rs:567-645 | nothing is listed twice or out of order |
| `Pagination.WalkWithin` | crates/lenso-auth-account-plugin/src/lib.rs:567-645 | only rows that exist by the last page are listed |
| `WebSession.WebSessionPlugin.Callback` | crates/lenso-auth-web-session-plugin/src/lib.rs:165-234 | a session issued by the callback ends in the cookies, revoked, or with the failed revoke reported, for every target the flow store admits; a completion that fails at run time is reported, and what it leaves is stated |
| `WebSession.WebSessionPlugin.CompleteLogin` | crates/lenso-auth-web-session-plugin/src/lib.rs:190-234 | a session is issued only for an active subject, and is settled when the callback returns |
| `WebSession.WebSessionPlugin.Finish` | crates/lenso-auth-web-session-plugin/src/lib.rs:206-234 | when it logs in, when it revokes, and that it strands the session iff the target passes the web rule but holds a control character |
| `WebSession.WebSessionPlugin.RollbackCredential` | crates/lenso-auth-web-session-plugin/src/lib.rs:292-318 | success means every session of the token is revoked; otherwise nothing changed and it is reported |
| `WebSession.LocalReturnSafeIff` | crates/lenso-auth-web-session-plugin/src/lib.rs:444-452 | a target that passes the web rule makes a legal header iff it holds no control character |
| `WebSession.ControlPassesLocalRule` | crates/lenso-auth-web-session-plugin/src/lib.rs:444-452 | a target with a control character that passes the web rule |
| `WebSession.BothRulesVisible` | crates/lenso-auth-oauth-flow-plugin/src/lib.rs:279-286 | both rules together leave exactly local paths of visible ASCII without backslash |
| `WebSession.SafeTargetIff` | crates/lenso-auth-web-session-plugin/src/lib.rs:444-452 | the browser is sent to exactly the paths of visible ASCII on this host without backslash, up to 2048 bytes |
| `WebSession.CookieOctetIff` | crates/lenso-auth-web-session-plugin/src/lib.rs:481-483 | the cookie octets are visible ASCII but for quote, comma, semicolon and backslash |
| `WebSession.TokensAreCookies` | crates/lenso-auth-account-plugin/src/lib.rs:836-843 | every account token is a legal cookie value |
| `WebSession.CookiesSafe` | crates/lenso-auth-web-session-plugin/src/lib.rs:413-419 | both cookies can be written to headers |
| `WebSession.CookieCarriesCredential` | crates/lenso-auth-web-session-plugin/src/lib.rs:413-415 | reading either cookie back gives its name and its value |

## Left out

- Plugin lifecycle, secret resolution, ports, futures, cancellation and the unseen PostgreSQL kit: framework plumbing.
- HTTP exchange and URL parsing of the OIDC client: the token endpoint is the provider's exchange and the key set its published keys; transport failures are dropped logins.
- Argument checks that only reject names before any statement runs, in the account and device plugins other than listing subjects (`valid_name`, `valid_audience`, claim size, an already expired issue request): they leave all tables alone.
- Unicode lower-casing and trimming of password identifiers: `PasswordLogin` takes the normalised identifier.
- Schema setup, upgrades and migrations; the unique primary keys and column defaults they declare are used, the partial unique index on primary devices is not.
- API token, anonymous, agent-tools, router and federated GitHub/Google plugins: easy copies or forwarding.
- Deadlock between device requests: the clearing update can touch a row outside the locked set, so only exclusion is claimed. Rows are locked in any order there, which covers the order of the source.
- Hash collisions of advisory lock names, and drift between the application's and the database's clock: one clock and collision-free names are assumed.
- A `revoke_session` whose update fails is a caller that stays pending for ever in RevokeSessionAnswers.
- An UPDATE that waits is one step, taken when its rows are free; rows inserted while it waits are then visible to it. Where this matters the subject's row lock forbids such inserts.
- The phone and password limiters share one machine and one store; only their table and lock names differ.
- `normalize_schema` works through a mutable reference: SchemaNormalizer.NormalizeSchema returns the rewritten value and does not capture update in place. Object members are visited in any order.
- JSON Schema keywords that the repository's schemas do not use, such as `pattern` or `dependentSchemas`, have no evaluation in `Accepts`.
- The RSA library's own checks of issuer, audience and expiry repeat the client's later and stricter ones and are not modelled apart; malformed base64 components never decode.
- The purpose column of OTP challenges, SMS delivery, debug codes, masked phone numbers and random digit drawing: no bearing on the limits.
- Timing, redaction and `Debug` output.
