# SecretSauce verification

Dafny models of the decision and state-keeping cores of the SecretSauce credential gateway, with
proofs of what they keep. `dafny verify dfyconfig.toml` checks everything.

Where the gateway updates state step by step (the credential coordinator and its vault, the OAuth
maps, the group and credential assignments, the activity tables, the login limiters, the parsers), a
class or a method with loops follows the source and is proved against a specification function; the
theorems are then about those functions, over single calls, over every interleaving and over whole
runs. Where the source is made of expressions (policy evaluation, safeguard merging, copying), the
model is functions and the theorems relate them to independent, declarative statements.

| files | what they model |
|---|---|
| `CredentialState`, `CredentialProtocol`, `CredentialSafety`, `CredentialGenerations`, `CredentialRecovery`, `CredentialCalls`, `CredentialVaultCoordinator` | the two-store protocol for credential values: rows, intents and events in the database, records in the vault, and recovery |
| `RefreshState`, `RefreshRotation`, `RefreshImage`, `BuiltinOAuth` | authorization codes, refresh grants and token rotation (section 4.14.2 of RFC 9700, section 4.6 of RFC 7636), and the store file |
| `GlobalLoginLimiter`, `LoginAttemptLimiter` | the login limiters |
| `PolicyMatchers`, `Policy`, `PolicyCopy`, `PolicyBulkCopy`, `AnchoredRegex` | policy matching, evaluation and copying |
| `ResponseSafeguards`, `RuntimePolicy` | merging response safeguards, the nested evaluation that applies them, and executing a request with resolved secrets |
| `AccessState`, `AccessInvalidation`, `GroupAssignments` | effective access and its invalidation |
| `ActivityProjection`, `ActivityAggregation`, `ActivityRecount`, `ActivityJob` | hourly activity counters |
| `Forwarded`, `Ipv6`, `ClientNetwork` | the client source: the Forwarded header, IPv6 addresses, trusted networks |
| `HeaderEnforcement` | headers owned by a credential |
| `Common`, `Lists` | options, arithmetic and list operations |

## What does not hold

Some properties a reader might expect are false of the code. Each is shown by a concrete case, next to
the exact condition under which the property holds.

- A replayed call resumes whatever intent is stored, of its own kind or not. A `setValue` that resumes a
  delete intent overwrites the record to be removed, and a `deleteValue` that resumes a replace removes
  the record the replace still needs; no recovery settles the credential again
  (`CredentialRecovery.ConfusedReplayStrands`, `CredentialRecovery.StrandedStaysStranded`). Over every
  run a credential is consistent or stranded in this way (`CredentialSafety.ConsistentOrStranded`), a step
  strands it exactly by such a vault call (`CredentialSafety.StrandedAfterStepIff`), and a recovery
  settles it exactly when it is not stranded (`CredentialRecovery.RecoverySettlesIff`). Over the whole
  call, with any loss or failure on the way, `setValue` leaves its credential consistent unless a delete
  with a record is pending and the vault call takes effect (`CredentialCalls.SetReplayKeepsInvIff`), and
  `deleteValue` unless a replace with its record at the prior generation is pending, the vault call takes
  effect, and the row is not marked for recovery or the reply or transaction fails
  (`CredentialCalls.DeleteReplayKeepsInvIff`).
- A replayed call can answer success without the effect asked for. A `deleteValue` that resumes a create
  or a replace answers success with a value configured; it means that the value is gone exactly when
  `CredentialCalls.DeleteReplayIsTruthfulIff` says, and a replayed `setValue` that its value is stored
  exactly when `CredentialCalls.SetReplayIsTruthfulIff` says.
- A replace that the vault refuses without effect is rolled back by the recovery to a configured
  credential, and `setValue` then answers success although the old secret remains
  (`CredentialCalls.RefusedReplaceReportsSuccess`). Success is true whatever fails exactly when the
  credential was unconfigured, or held the submitted secret already (`CredentialCalls.SetIsTruthfulIff`).
- The refresh-token capacity is checked before a signing await. Overlapping exchanges can pass it
  together, both succeed, and leave an image the next start refuses
  (`RefreshImage.OverlapOverflows`). A rotation begun by a clock that went back far enough is answered
  with success too and leaves a grant that ends idle before it was created, which the next start refuses
  (`RefreshImage.BackwardClockStopsRestart`). A reachable image is refused exactly when it exceeds the
  capacity or its timestamps are out of order (`RefreshImage.ImageAcceptedIff`), and while the clock never
  goes back only for the capacity (`RefreshImage.OnlyCapacityRejects`).
- A full store of the attempt limiter evicts its oldest counter even while that counter is locked and
  others are not (`LoginLockouts.FullStoreDropsALock`). A failure can drop a counter exactly when its key
  is new, the store is full and no counter in it is older (`LoginLockouts.LostIffDropped`).
- An enabled rule whose last selected user or group was deleted still evaluates, as a rule for nobody,
  but its policy can no longer be copied (`PolicyCopy.OrphanedRuleIsNotCopied`); copying is the
  identity exactly when every enabled rule still selects someone (`PolicyCopy.CopyIsIdentityIff`).
- Replacing the members of a group that only a credential's selector names, or archiving it, changes
  access to the credential without naming the users concerned (`AccessInvalidation.SilentLoss`); such a
  change is announced to them exactly when the service selects the group
  (`AccessInvalidation.CredentialAccessAnnouncedIff`).
- An activity event older than the retention time can be counted twice
  (`ActivityAggregation.OldEventIsCountedTwice`). A stored event of any age is counted twice exactly when
  a job cleared its ledger entry while the cursor was still before it, the cursor has reached it since,
  and its bucket was not cleared (`ActivityRecount.CountedTwiceIff`); one job counts an event exactly when
  its batch holds it and the ledger does not (`ActivityRecount.JobCounts`).

## Modelling decisions

- Ids, locators, token hashes, codes, secrets, clients and scopes are natural numbers that are only
  compared; generated ones are required to be new. Clock readings are arguments.
- A database transaction is one atomic step that may fail without effect. A vault call has its full
  effect or none, and its reply may be lost. A crash forgets the executor of an operation.
- At most one executor acts for a credential's intent at a time.
- Each stretch of an OAuth request between two awaits is one step; a suspended request is an entry of
  the waiting map. Writing the store file is atomic.
- Tables are maps and sets. Where the source reads rows in an order that decides something (oldest
  first, least sequence), the order is part of the model; elsewhere it is proved to play no part.
- JavaScript's case folding, host canonicalisation, regular-expression matching and Unicode
  normalisation are function parameters.

## Model

| member | source | states |
|---|---|---|
| CredentialSafety.EveryRunKeepsInv | src/credentialVaultCoordinator.ts:638-765 | In every state a run reaches, whatever intents its replays resume, an intent row exists exactly when the vault state is not idle, an idle configured or disabled row names a record at exactly its generation, a pending one has its record, if any, at a generation its intent allows, and no record is orphaned. Runs mix prepares, vault calls with lost replies, crashes, replays, finalizes, rollbacks, recoveries and the lifecycle transactions. |
| CredentialSafety.ConsistentOrStranded | src/credentialVaultCoordinator.ts:638-765 | Over every run each credential is consistent, a pending replace having its record and a pending delete at most the one to remove, exactly when it is not stranded; an idle one always is. |
| CredentialSafety.StrandedAfterStepIff | src/credentialVaultCoordinator.ts:540-556 | A step strands a credential exactly by a vault call of a replay of the other kind that takes effect on the record its intent expects, and frees one exactly by the finalizing transaction of a replayed delete on a row marked for recovery; no other step of any credential does either. |
| CredentialSafety.OwnKindKeepsClear | src/credentialVaultCoordinator.ts:540-556 | A credential whose own replays resume intents of their own kind is consistent throughout every run, whatever the replays of other credentials do. |
| CredentialSafety.OwnKindRunKeepsInv | src/credentialVaultCoordinator.ts:638-765 | If all replays of a run resume intents of their own kind every credential is consistent. |
| CredentialSafety.StepTouchesOnly | src/credentialVaultCoordinator.ts:807-1003 | A step of one credential leaves the row, the intent and the records of every other credential as they are. |
| CredentialGenerations.OneValuePerAuthorizationGeneration | src/credentialVaultCoordinator.ts:681-702 | Any two moments of a run at which a credential is idle and configured under the same authorization generation show the same locator, vault generation and secret. |
| CredentialGenerations.OneSecretPerVaultGeneration | src/vault/recordStore.ts:635-735 | A locator that holds the same generation at two moments of a run holds the same secret. |
| CredentialGenerations.EveryGenerationIsAnnounced | src/credentialManagement.ts:1311-1392 | No credential reaches an authorization generation without an invalidation event carrying it, under any interleaving. |
| CredentialRecovery.RecoveryIsARun | src/credentialVaultCoordinator.ts:1005-1053 | A recovery attempt does nothing that interleaved steps of the machine do not do. |
| CredentialRecovery.RecoveryKeepsInv | src/credentialVaultCoordinator.ts:1005-1053 | Whatever fails during a recovery attempt, it keeps the invariant of all runs, touches no other credential, and leaves a consistent one consistent. |
| CredentialRecovery.RecoverySettles | src/credentialVaultCoordinator.ts:1005-1053 | With vault and database reachable one attempt settles a consistent credential unless its intent waits for an approval: idle, with the requested effect if the vault holds the target value and with exactly the prior row otherwise; a delete completes. |
| CredentialRecovery.RecoverySettlesIff | src/credentialVaultCoordinator.ts:1005-1053 | After any run, whatever its replays resumed, one attempt with everything reachable settles a pending credential without an approval exactly when it is not stranded; a stranded one stays so. |
| CredentialRecovery.VaultIsNeverToBlame | src/credentialVaultCoordinator.ts:1005-1053 | For a consistent credential and a vault that keeps its contract, an absent prior record is never recorded, and an unresolved generation only when the own delete of the recovery or its transaction failed. |
| CredentialRecovery.PassSettlesBatch | src/credentialVaultCoordinator.ts:484-499 | A pass over a batch with everything reachable, after any run, never throws, gives every credential of the batch that is neither stranded nor waiting for an approval the row a recovery of it alone would, leaves the others pending and those outside untouched, and reports exactly the number settled. |
| CredentialRecovery.PassLeavesNone | src/credentialVaultCoordinator.ts:484-499 | Up to 1000 pending intents without approvals: one pass leaves exactly those of stranded credentials, and none if none is stranded. |
| CredentialRecovery.StrandedStaysStranded | src/credentialVaultCoordinator.ts:1005-1053 | A delete intent whose record moved past its generation, or a replace intent whose record is gone, is left unresolved by every recovery. |
| CredentialCalls.SetReplayKeepsInvIff | src/credentialVaultCoordinator.ts:211-297 | A replayed setValue, as a whole call under given faults, leaves its credential consistent exactly unless the intent it resumes is a delete with a record and the vault call takes effect; otherwise the credential is stranded and the answer is a failure. |
| CredentialCalls.SetReplayIsSafeIff | src/credentialVaultCoordinator.ts:540-556 | It ends consistent whatever fails exactly when no delete with a record still there is pending. |
| CredentialCalls.SetReplayIsTruthfulIff | src/credentialVaultCoordinator.ts:211-297 | Its answer of success means that the submitted value is stored, whatever fails, exactly when no other value stands at the locator of a resumed set intent, or, without an intent, when the credential holds the value already. |
| CredentialCalls.DeleteReplayKeepsInvIff | src/credentialVaultCoordinator.ts:369-407 | A replayed deleteValue, as a whole call under given faults, leaves its credential consistent exactly unless it resumes a replace with its record at the prior generation, the vault call takes effect, and the row is not marked for recovery or the reply or the transaction fails; otherwise the credential is stranded and the answer is a failure. |
| CredentialCalls.DeleteReplayIsSafeIff | src/credentialVaultCoordinator.ts:600-636 | It ends consistent whatever fails exactly when no such replace is pending; when nothing fails, exactly when none is pending that is not marked for recovery. |
| CredentialCalls.DeleteReplayIsTruthfulIff | src/credentialVaultCoordinator.ts:369-407 | Its answer of success means that the credential is settled with no value and no record, whatever fails, exactly when it resumes a delete, a create that left no record, or a stored value awaiting an approval (and then never answers success), or finds no intent and no value. |
| CredentialRecovery.ConfusedReplayStrands | src/credentialVaultCoordinator.ts:540-556 | A concrete run in which a replayed setValue resumes a delete intent and leaves a credential no recovery settles. |
| CredentialCalls.SetValueStoresIffApplied | src/credentialVaultCoordinator.ts:211-297 | When a first setValue answers success the credential is settled and holds the submitted secret if the vault call took effect, and otherwise the value it had. |
| CredentialCalls.SetIsTruthfulIff | src/credentialVaultCoordinator.ts:211-297 | The success of a first setValue means that the value is stored, whatever fails, exactly when the credential was unconfigured or held the submitted secret before. |
| CredentialCalls.RefusedReplaceReportsSuccess | src/credentialVaultCoordinator.ts:262-296 | A concrete replace that the vault refuses without effect and that is answered as a success while the old secret remains. |
| CredentialCalls.DeleteValueErases | src/credentialVaultCoordinator.ts:706-765 | When a first deleteValue, which prepared its own intent, answers success the secret is gone and the credential is unconfigured or archived as asked, whichever replies were lost. |
| CredentialCalls.EnableSucceedsIff | src/credentialVaultCoordinator.ts:409-482 | With nothing in between, enable succeeds exactly for a settled disabled credential at the given version with the vault reachable, and keeps the record it had. |
| CredentialCalls.EnableVouchesForItsRecord | src/credentialVaultCoordinator.ts:416-475 | Over every run, whatever steps come between the three stretches of enable: a commit configures exactly the row that was read, and its record is the same one, secret included, when the row was read, when the vault answered and at the commit. |
| CredentialVaultCoordinator.VaultRecordStore.Create | src/vault/recordStore.ts:635-664 | A new record at generation 1 under a fresh locator; a failing call has its full effect or none. |
| CredentialVaultCoordinator.VaultRecordStore.Replace | src/vault/recordStore.ts:666-700 | Needs the expected generation and raises it by one. |
| CredentialVaultCoordinator.VaultRecordStore.Delete | src/vault/recordStore.ts:718-735 | Needs the expected generation and removes the record. |
| CredentialVaultCoordinator.CredentialVaultCoordinator.PrepareSetMutation | src/credentialVaultCoordinator.ts:638-704 | Checks, new row and create or replace intent as one transaction, or an error and no change. |
| CredentialVaultCoordinator.CredentialVaultCoordinator.PrepareDeleteMutation | src/credentialVaultCoordinator.ts:706-765 | Checks, new row and delete or archive intent as one transaction, or an error and no change. |
| CredentialVaultCoordinator.CredentialVaultCoordinator.FinalizeSetMutation | src/credentialVaultCoordinator.ts:807-902 | The row takes the stored generation and the intent goes; an intent with an approval needs a proof. |
| CredentialVaultCoordinator.CredentialVaultCoordinator.FinalizeDeleteMutation | src/credentialVaultCoordinator.ts:904-946 | The row loses its locator, takes its final status, and the intent goes. |
| CredentialVaultCoordinator.CredentialVaultCoordinator.RollbackMutation | src/credentialVaultCoordinator.ts:948-977 | The row returns to its prior status and the intent goes. |
| CredentialVaultCoordinator.CredentialVaultCoordinator.MarkReconcileMutation | src/credentialVaultCoordinator.ts:979-1003 | The intent and the row are marked for recovery with the category. |
| CredentialVaultCoordinator.CredentialVaultCoordinator.TryReconcileNow | src/credentialVaultCoordinator.ts:1005-1053 | One recovery attempt on the stores is the attempt of the model, in state and in answer. |
| CredentialVaultCoordinator.CredentialVaultCoordinator.ReadForEnable | src/credentialVaultCoordinator.ts:416-432 | What is read first: the disabled, idle row at the given version, or not found, stale or conflict. |
| CredentialVaultCoordinator.CredentialVaultCoordinator.ConfirmRecord | src/credentialVaultCoordinator.ts:433-444 | The vault is asked for the record; a failure, or a generation other than that of the row, ends the call. |
| CredentialVaultCoordinator.CredentialVaultCoordinator.CommitEnable | src/credentialVaultCoordinator.ts:445-475 | The transaction rechecks version, status, state and observed generation, and then configures the row under a new authorization generation with an event. |
| CredentialVaultCoordinator.CredentialVaultCoordinator.EnableCredential | src/credentialVaultCoordinator.ts:409-482 | The three stretches in turn are the outcome function the theorem speaks of, vault failures included. |
| CredentialVaultCoordinator.CredentialVaultCoordinator.SetValue | src/credentialVaultCoordinator.ts:211-297 | The whole call on both stores, first or replayed, is the outcome function the theorems speak of. |
| CredentialVaultCoordinator.CredentialVaultCoordinator.DeleteValueNow | src/credentialVaultCoordinator.ts:369-407 | The whole call on both stores, first or replayed, is the outcome function the theorems speak of. |
| CredentialVaultCoordinator.CredentialVaultCoordinator.ReconcilePending | src/credentialVaultCoordinator.ts:484-499 | The loop over pending intents computes the pass of the model and counts what it settled. |
| RefreshRotation.EveryRunKeepsInv | src/builtinOAuth.ts:1071-1163 | Under every interleaving of exchanges, rotations, sweeps, failures and restarts each grant has exactly one token that is active or rotating, every token points at a live grant, a grant changes only in its idle expiry, which never passes its absolute expiry, and every rotating token is held by a waiting request. |
| RefreshRotation.AtMostOneSuccess | src/builtinOAuth.ts:1002-1069 | Each code and each refresh token value gets at most one success response over all interleavings and restarts, and issued scopes stay within the scopes the code was issued for. |
| RefreshRotation.ReuseEndsFamily | src/builtinOAuth.ts:1096-1103 | Presenting a rotating or used token removes its whole family; within the process no request on it, in flight or later, succeeds. |
| RefreshRotation.IssuedGrantIsBound | src/builtinOAuth.ts:1015-1050 | A step, of one request. A grant answered for is bound to the client, redirect URI, resource, scopes, subject and PKCE challenge of the code presented. |
| RefreshImage.ImageAcceptedIff | src/builtinOAuth.ts:1430-1457 | The image of a reachable state is accepted exactly when it fits the capacity and its timestamps are ordered. |
| RefreshImage.RestartRestores | src/builtinOAuth.ts:1400-1428 | A process started from the image just written has the same grants and tokens, rotations undone, expired grants dropped. |
| RefreshImage.RestartServesIffImageHolds | src/builtinOAuth.ts:1400-1428 | A step, from the definition of loading. A restart serves a family if and only if the image still holds it unexpired. |
| RefreshImage.OnlyCapacityRejects | src/builtinOAuth.ts:1430-1457 | While the clock never goes back, the image of a reachable state is rejected only for holding too many token records. |
| RefreshImage.OverlapOverflows | src/builtinOAuth.ts:1040-1056 | Two exchanges admitted while one place was left both succeed, and the image they leave stops the next start. |
| RefreshImage.OverlapStopsRestart | src/builtinOAuth.ts:1040-1056 | The same from an empty server, step by step. |
| RefreshImage.BackwardRotationStopsRestart | src/builtinOAuth.ts:1132-1147 | A rotation begun at a time whose idle limit lies before the creation of its grant is answered with success, and the next start refuses its image, whatever the capacity. |
| RefreshImage.BackwardClockStopsRestart | src/builtinOAuth.ts:1430-1457 | A concrete run from an empty server in which the clock goes back once, every request succeeds within the capacity, and the next process does not start. |
| RefreshImage.SerialRunsFit | src/builtinOAuth.ts:1126-1130 | When a request starts only while no other waits, the capacity holds over every run. |
| BuiltinOAuth.ValidatePersistedRefreshState | src/builtinOAuth.ts:1430-1457 | The pass with id and hash sets and active counts accepts exactly the documents without duplicates that satisfy the declarative acceptance. |
| BuiltinOAuth.OneActiveIffCounted | src/builtinOAuth.ts:1441-1455 | A grant has exactly one active token when the count of its active entries is one. |
| BuiltinOAuth.ListTokens | src/builtinOAuth.ts:1484-1491 | The token list written has no duplicate and reads back as the tokens with rotations undone. |
| BuiltinOAuth.BuiltinOAuth.SweepAuthorizationCodes | src/builtinOAuth.ts:1351-1353 | Deleting entries one by one leaves exactly the unexpired codes. |
| BuiltinOAuth.BuiltinOAuth.RevokeRefreshGrant | src/builtinOAuth.ts:1389-1394 | The grant and all its tokens go; nothing else changes. |
| BuiltinOAuth.BuiltinOAuth.SweepRefreshGrants | src/builtinOAuth.ts:1378-1387 | Exactly the expired grants go, each with its tokens, and the answer tells whether any did. |
| BuiltinOAuth.BuiltinOAuth.PersistRefreshState | src/builtinOAuth.ts:1484-1501 | A successful write leaves a duplicate-free document whose image is the memory with rotations undone; a failed one leaves the file. |
| BuiltinOAuth.BuiltinOAuth.ExchangeAuthorizationCode | src/builtinOAuth.ts:1002-1045 | The stretch of a code exchange before signing, on the maps, is the transition of the machine. |
| BuiltinOAuth.BuiltinOAuth.FinishExchange | src/builtinOAuth.ts:1045-1062 | The stretch after signing, with the grant revoked again when the write fails. |
| BuiltinOAuth.BuiltinOAuth.ExchangeRefreshToken | src/builtinOAuth.ts:1071-1132 | The stretch of a rotation before signing is the transition of the machine. |
| BuiltinOAuth.BuiltinOAuth.FinishRotation | src/builtinOAuth.ts:1132-1156 | The stretch after signing, with every change taken back when the write fails. |
| BuiltinOAuth.BuiltinOAuth.NewProcess | src/builtinOAuth.ts:1400-1428 | Loading refuses what does not validate, otherwise restores the image and drops expired grants. |
| GlobalLoginLimiter.AdmissionBound | src/builtinOAuth.ts:221-243 | Over any run with a clock that never goes back every interval of the window length admits fewer than twice the limit. |
| GlobalLoginLimiter.AdmissionBoundIsMet | src/builtinOAuth.ts:221-243 | A run that reaches that bound, for every positive limit and every window of at least two milliseconds. |
| GlobalLoginLimiter.GlobalLoginLimiter.Take | src/builtinOAuth.ts:231-242 | Admits or refuses as the window says; a refusal names the time until the reset, at least one millisecond. |
| LoginLockouts.EveryRunKeepsInv | src/loginAttemptLimiter.ts:28-86 | Counts stay below their thresholds, stores within their size, and no lockout outlasts its length. |
| LoginLockouts.LockoutNeverMovesEarlier | src/loginAttemptLimiter.ts:63-76 | No step moves the lockout of a counter that lives through it earlier, nor that of the global counter. |
| LoginLockouts.LockoutLength | src/loginAttemptLimiter.ts:72-75 | A lockout lasts the initial time doubled for each before it, up to the maximum. |
| LoginLockouts.LostIffDropped | src/loginAttemptLimiter.ts:46-61 | A call can lose a counter exactly when it is a success naming it, a sweep that finds it stale, or a failure of a new key on a full store in which no counter is older; a counter strictly older than the rest is then always the one lost, and a sweep never loses a locked one. |
| LoginLockouts.LockedIsRefused | src/loginAttemptLimiter.ts:28-37 | A locked source or account is refused at every moment before its lockout ends, short of a success for it or its eviction. |
| LoginLockouts.OverallLockRefusesAll | src/loginAttemptLimiter.ts:28-37 | While the global counter is locked every source and account is refused, whatever steps run. |
| LoginLockouts.FullStoreDropsALock | src/loginAttemptLimiter.ts:51-61 | A concrete run from an empty limiter in which a full store loses its one locked source, the oldest, to a new key while an unlocked source stays; the source is no longer refused. |
| LoginLockouts.GuessingIsSlow | src/loginAttemptLimiter.ts:39-76 | Over any run of the limiter in which the counter of a source or account is kept and its failures are admitted and sustained, every failure counts towards a lockout, and the counter ends locked until no earlier than all those lockouts added up. |
| LoginLockouts.LockoutsDouble | src/loginAttemptLimiter.ts:72-75 | Until the maximum is reached the lockouts add up exponentially. |
| LoginAttemptLimiter.LoginAttemptLimiter.Check | src/loginAttemptLimiter.ts:28-37 | Sweeps, then answers by the latest of the three lockouts. |
| LoginAttemptLimiter.LoginAttemptLimiter.RecordFailure | src/loginAttemptLimiter.ts:39-44 | Counts the failure for source, account and all, evicting the oldest counter of a full store for a new key. |
| LoginAttemptLimiter.FindOldest | src/loginAttemptLimiter.ts:54-56 | Finds a counter seen no later than any other. |
| LoginAttemptLimiter.SweepStore | src/loginAttemptLimiter.ts:78-81 | Drops exactly the stale counters. |
| Policy.BoundaryAllowsIff | src/policy.ts:167-245 | A boundary allows exactly when it is assigned and no matching rule of the top matching priority denies, or by its mode when none matches. |
| Policy.SnapshotAllowsIff | src/policy.ts:107-125 | A request is allowed exactly when every boundary permits it. |
| Policy.CredentialOnlyNarrows | src/policy.ts:113-116 | Another credential boundary, anywhere in the list, leaves the verdict or denies. |
| Policy.RuleOrderIsIrrelevant | src/policy.ts:167-245 | Reordering rules changes neither verdict, selected rules, decisive rule, reason nor any rule's explanation. |
| Policy.GroupOrderIsIrrelevant | src/policy.ts:112-112 | Reordering or repeating group ids changes nothing in the whole explanation. |
| Policy.SelectedIffTop | src/policy.ts:217-228 | A rule is marked selected exactly when it matches at the top matching priority. |
| Policy.ReasonIsFaithful | src/policy.ts:190-245 | The reason names a tie, a denial, an allowance or a default exactly when that is the case. |
| Policy.DecisiveIsLeast | src/policy.ts:213-216 | The decisive rule is the one of least id among the top rules that carry the verdict. |
| PolicyMatchers.PrefixMatchesIffSegments | src/policyMatchers.ts:45-53 | A prefix matcher other than "/" matches exactly when its segments are a list prefix of the path's. |
| PolicyMatchers.SuffixMatchesIffLabels | src/policyMatchers.ts:36-43 | A suffix matcher matches exactly when its labels are a list suffix of the host's. |
| PolicyMatchers.AssertUnambiguousPercentEncoding | src/policyMatchers.ts:108-124 | The skipping scan accepts exactly the texts in which every percent sign begins an escape of a byte with no other spelling. |
| AnchoredRegex.AssertAnchoredLinearRegex | src/policyMatchers.ts:126-182 | The scan accepts exactly the grammar of anchored atoms with at most one quantifier each, within the length bounds. |
| AnchoredRegex.AcceptsIff | src/policyMatchers.ts:126-182 | Scanning and the grammar agree on every text, both ways. |
| AnchoredRegex.AcceptedIsLinear | src/policyMatchers.ts:126-182 | No accepted expression holds a group, an alternation, a counted repetition or a stacked quantifier. |
| AnchoredRegex.OneReading | src/policyMatchers.ts:126-182 | An accepted expression is the text of one sequence of items only. |
| AnchoredRegex.AcceptedCoversInput | src/policyMatchers.ts:126-182 | Read as an expression by a reader that takes anchors wherever they stand, an accepted text has them at its two ends only, so every match of it, wherever a search tries to start, covers the whole input. |
| PolicyCopy.CopyIsIdentityIff | src/policyManagement.ts:2248-2261 | Parsing the copy document of stored rules gives the rules back exactly when every enabled rule still selects someone, and is refused otherwise. |
| PolicyCopy.RuleCopiesIff | src/policyManagement.ts:2325-2373 | The same for one rule. |
| PolicyCopy.OrphanedRuleIsNotCopied | src/policyManagement.ts:2356-2359 | An example of CopyIsIdentityIff. An enabled rule that lost its last principal cannot be copied although it evaluates, as a rule for nobody. |
| PolicyCopy.ViewOfRewritten | src/policyManagement.ts:1905-1955 | Writing what rows select and reading it back selects the same. |
| PolicyCopy.SelectorMeaning | src/policyManagement.ts:1779-1795 | A stored rule applies to a user exactly when a row selects everyone, the user or a group of the user. |
| PolicyBulkCopy.SameServiceCopyDecidesAlike | src/policyManagement.ts:748-860 | A copy within the service decides every request as its source. |
| PolicyBulkCopy.CrossServiceCopyIsDefault | src/policyManagement.ts:833-846 | A copy to another service decides every request by its mode; no rule is enabled and none selects anyone. |
| PolicyBulkCopy.BulkCopyKeepsTables | src/policyManagement.ts:769-812 | A batch keeps one active policy at most per boundary and all limits. |
| PolicyBulkCopy.CopyGoverns | src/policyManagement.ts:814-834 | Afterwards the copy is the one active policy of its boundary. |
| PolicyBulkCopy.CheckCopies | src/policyManagement.ts:769-812 | The key set, the count per service with the occupied boundaries, and the sums decide exactly the declared limits. |
| PolicyBulkCopy.PolicyManagement.BulkCopy | src/policyManagement.ts:734-902 | Succeeds exactly under the checks, inserting every copy, and otherwise changes nothing. |
| ResponseSafeguards.MergeIsGreatestLowerBound | src/gateway.ts:1205-1243 | The merged safeguards are the greatest lower bound of the selected ones, with no size limit as the top. |
| ResponseSafeguards.OffIffAllTurnOff | src/gateway.ts:1220-1232 | A scan rule is off exactly when every selected safeguard turns it off. |
| ResponseSafeguards.WithinIffWithinAll | src/gateway.ts:1229-1242 | A size passes exactly when every selected safeguard lets it pass. |
| ResponseSafeguards.MergeForgetsOrder | src/gateway.ts:1205-1243 | Order and repeats among the selected safeguards make no difference. |
| ResponseSafeguards.SelectedIff | src/gateway.ts:1209-1219 | Merging succeeds exactly when every selected rule is stored with valid safeguards, and merges exactly what the boundaries contribute. |
| ResponseSafeguards.RuntimeSafeguardsIff | src/gateway.ts:1205-1243 | For a request with a boundary, merging succeeds exactly when every selected rule is available, and turns a scan rule off, scans bodies and lets a size pass exactly as all that the boundaries contribute have it. |
| RuntimePolicy.NestedSelectsSafeguards | src/gateway.ts:340-346 | Whatever the request, the nested evaluation allows it by the one rule of its configuration, and the response is held to the merged safeguards that rule carries. |
| RuntimePolicy.SelectedIsPublished | src/gateway.ts:1086-1132 | Every rule a decision selects is found again among the published policies. |
| RuntimePolicy.ResponseIsHeldToAll | src/gateway.ts:591-645 | End to end: a call gets a response exactly when every boundary permits it and the safeguards of all selected rules parse, and the response is then held to the greatest lower bound of what the boundaries of the outer decision contribute. |
| RuntimeExecution.Execution.Execute | src/gateway.ts:754-896 | Each credential resolved on the way is forgotten again on every exit, and the requests made and the answer are those of the specification. |
| RuntimeExecution.Execution.Run | src/gateway.ts:892-896 | A request leaves the map of resolved secrets empty, however it ends, and is made exactly when every credential is granted and approved, once, with the secrets of all. |
| RuntimeExecution.AnswersIffAllResolve | src/gateway.ts:754-896 | It is answered with a success only when every credential was granted and approved and the vault did not fail afterwards, and then with the answer to the request made with the secrets of all. |
| AccessInvalidation.EveryChangeIsAnnounced | src/groupAssignments.ts:1165-1187 | Every transaction that changes a user's access to a service raises the service's generation and announces the user at it. |
| AccessInvalidation.RunsAnnounceEveryChange | src/groupAssignments.ts:272-535 | Over a run every user whose access differs at its end was announced at a generation reached; an unchanged generation means unchanged access. |
| AccessInvalidation.ArchiveIsCovered | src/groupAssignments.ts:284-311 | A step of EveryChangeIsAnnounced. Archiving a group announces everyone who loses access by it. |
| AccessInvalidation.DeleteChangesNothing | src/groupAssignments.ts:347-360 | A step of EveryChangeIsAnnounced. Deleting an archived group changes nobody's access. |
| AccessInvalidation.ReplaceIsCovered | src/groupAssignments.ts:398-436 | Replacing members announces everyone whose access changes. |
| AccessInvalidation.AssignIsCovered | src/groupAssignments.ts:483-535 | A step of EveryChangeIsAnnounced. Replacing the service's selector announces everyone whose access changes and touches no other service. |
| AccessInvalidation.EffectiveIffBothAuthorize | src/credentialManagement.ts:1394-1523 | A step of CredentialAccessAnnouncedIff. The users listed for a credential are exactly those both authorization checks pass. |
| AccessInvalidation.CredentialChangeIsExact | src/credentialManagement.ts:313-344 | The case left out of CredentialAccessAnnouncedIff, direct from the definition of the affected set. Replacing a credential's selector announces exactly those whose effective access changed. |
| AccessInvalidation.MembershipAnnouncedIff | src/groupAssignments.ts:425-436 | A membership change that changes access to a credential is announced exactly when the service itself selects the group; otherwise there is no event and no new generation at all. |
| AccessInvalidation.CredentialAccessAnnouncedIff | src/groupAssignments.ts:284-311 | A change of access to a credential by any group transaction or service selector is announced to the user exactly when it is on the selector or the service selects the group, archiving included; deleting a group never is such a change. |
| AccessInvalidation.SilentLoss | src/groupAssignments.ts:425-436 | An example. A concrete loss of access to a credential without any announcement. |
| GroupAssignments.GroupAssignments.ArchiveGroup | src/groupAssignments.ts:272-333 | The statements on the tables are the transaction of the model, or an error and no change. |
| GroupAssignments.GroupAssignments.DeleteGroup | src/groupAssignments.ts:335-382 | The statements on the tables are the transaction of the model, or an error and no change. |
| GroupAssignments.GroupAssignments.ReplaceMembers | src/groupAssignments.ts:384-459 | The statements on the tables are the transaction of the model, or an error and no change. |
| GroupAssignments.GroupAssignments.ReplaceAssignments | src/groupAssignments.ts:471-535 | The statements on the tables are the transaction of the model, or an error and no change. |
| GroupAssignments.GroupAssignments.ReplaceCredentialAssignments | src/credentialManagement.ts:296-344 | The statements on the tables are the transaction of the model, or an error and no change. |
| GroupAssignments.GroupAssignments.Invalidate | src/groupAssignments.ts:1165-1187 | One event for the service and one for each affected user, at the next generation. |
| GroupAssignments.GroupAssignments.ListEffectiveUsers | src/groupAssignments.ts:1118-1148 | Lists exactly the effective users. |
| ActivityProjection.CountedOnceEach | src/activityProjection.ts:16-36 | After any projections, in any order and with repeats, what was counted is each distinct qualifying event once. |
| ActivityProjection.ProjectionForgetsOrder | src/activityProjection.ts:16-93 | Order, repeats and batches make no difference to the hourly rows and the subjects. |
| ActivityProjection.RowMeans | src/activityProjection.ts:51-87 | A row counts the events of its key, from exactly the earliest to the latest. |
| ActivityProjection.RowSums | src/activityProjection.ts:51-87 | A row's sums are the sums over those events. |
| ActivityAggregation.ExactlyOnce | src/activityAggregation.ts:115-158 | Over any run of appends, retirements and jobs a stored qualifying event within the retention time is counted exactly once when the cursor has passed it and never twice. |
| ActivityAggregation.EveryRunKeepsInv | src/activityAggregation.ts:73-183 | The invariant between table, ledger, cursor and counters holds over every run; the lease is never found held. |
| ActivityAggregation.OldEventIsCountedTwice | src/activityAggregation.ts:233-256 | An event past the retention time is counted twice when its ledger entry is cleared before the cursor reaches it. |
| ActivityRecount.JobCounts | src/activityAggregation.ts:115-139 | One job raises the count of a stored qualifying event of any age, by one, exactly when its batch holds the event and the ledger does not, unless it clears the bucket. |
| ActivityRecount.CountedTwiceIff | src/activityAggregation.ts:115-158 | Over any run a stored qualifying event of any age is counted at most twice, and twice exactly when its ledger entry was cleared before the cursor reached it, the cursor has reached it since and its bucket was not cleared. |
| ActivityRecount.OnlyOldIsForgotten | src/activityAggregation.ts:233-256 | A ledger entry is cleared before the cursor reaches its event only for an event past the retention time and behind a full batch. |
| ActivityJob.ActivityTables.ProjectHourlyActivity | src/activityProjection.ts:10-94 | Ledger insert, upsert and subject insert are the projection of the model; nothing when the ledger refuses. |
| ActivityJob.ActivityTables.Run | src/activityAggregation.ts:87-158 | One run is the job of the model: a batch behind the cursor, then the oldest expired buckets and ledger entries. |
| ActivityJob.ActivityTables.DeleteExpiredBuckets | src/activityAggregation.ts:207-231 | Takes the oldest expired buckets, at most a batch, from rows and subjects. |
| ActivityJob.ActivityTables.DeleteExpiredLedger | src/activityAggregation.ts:233-256 | Takes the oldest expired ledger entries, at most a batch. |
| ActivityJob.ActivityTables.AppendRuntimeAudit | src/persistence/database.ts:297-336 | Appending an event stores and projects it at once. |
| Forwarded.PrintThenParse | src/clientSource.ts:112-161 | Quoting, joining, splitting and unquoting gives back every list of strings. |
| Forwarded.ForwardedRoundTrip | src/clientSource.ts:95-110 | A Forwarded header naming each hop as a quoted parameter is read back as those hops. |
| Forwarded.SplitQuoted | src/clientSource.ts:112-140 | The loop with its flags computes the parts outside quotes. |
| Forwarded.Unquote | src/clientSource.ts:142-161 | The loop computes the unquoted text, a final escape taking the closing quote. |
| Ipv6.FullRoundTrip | src/clientSource.ts:253-276 | Eight words printed in full are read back. |
| Ipv6.CompressedRoundTrip | src/clientSource.ts:253-276 | So are they with any nonempty run of zeros as a double colon. |
| Ipv6.EmbeddedRoundTrip | src/clientSource.ts:253-276 | And with the last two words as an IPv4 address. |
| Ipv6.CompressedEmbeddedRoundTrip | src/clientSource.ts:253-276 | And with both. |
| Ipv6.MappedRoundTrip | src/clientSource.ts:253-276 | And with the IPv4 address directly after the double colon. |
| ClientNetwork.Contains | src/clientSource.ts:216-227 | The byte and mask comparison decides agreement on the first prefix bits. |
| ClientNetwork.HostBitsZero | src/clientSource.ts:229-234 | True exactly when no bit after the prefix is set. |
| ClientNetwork.NetworkIsInterval | src/clientSource.ts:195-234 | A network with zero host bits is exactly the interval of length two to the number of host bits from its address. |
| ClientNetwork.Resolve | src/clientSource.ts:24-46 | The walk over the chain computes the client of every mode. |
| ClientNetwork.RightmostUntrusted | src/clientSource.ts:40-46 | The answer in trusted mode is the rightmost untrusted hop, or the first when all are trusted. |
| ClientNetwork.PrependingHopsIsUseless | src/clientSource.ts:24-46 | Hops put in front of a chain with an untrusted hop leave the client found as it is, or make the chain too long and refused; never another client. |
| HeaderEnforcement.EnforcedHeadersAreOwned | src/headerEnforcement.ts:9-92 | Each enforced header present occurs exactly once with its credential's template around one valid reference, all others are unchanged, and no reference standing for an enforced credential occurs elsewhere. |
| HeaderEnforcement.EnforcingTwiceIsOnce | src/headerEnforcement.ts:9-60 | Applying the rewrite to its result gives that result and no other when the configured prefixes and suffixes of enforced credentials hold no reference text. |
| HeaderEnforcement.DelimitedTemplateIsClean | src/headerEnforcement.ts:7-7 | A prefix without the reference mark and a delimited suffix without a reference leave the reference of the template the only one found. |
| HeaderEnforcement.EnforceCredentialHeaderUsage | src/headerEnforcement.ts:9-60 | Succeeds exactly when the groups can be rewritten in turn and no reference strays, with that result. |
| HeaderEnforcement.GroupsCover | src/headerEnforcement.ts:114-123 | Grouping puts every enforced credential in one group per header name. |
| HeaderEnforcement.EnforceGroup | src/headerEnforcement.ts:22-51 | One header: exactly one valid reference, standing for an owner, or refusal. |
| HeaderEnforcement.AssertNoStray | src/headerEnforcement.ts:62-92 | Decides whether every reference to an enforced credential stands in its own header and template. |

## Left out

- Serving HTTP, login pages, sockets, DNS, TLS and downstream requests: input and output without state of their own.
- Cryptography, JWT signing, password hashing, HMAC cursors and the vault's file format: opaque, or only their success and failure.
- Actor, role and step-up checks, audit documents, logging and error mapping: a failed check changes nothing, which is all the models keep of them.
- Idempotency records: only whether a call replays an earlier one and resumes its intent.
- Self-API-key detection: only that an intent carrying an approval cannot finalize without a proof, and that an unapproved key stops a request.
- Database-mode OAuth and the token broker: their files are not part of this model; the broker is a function that says which references are valid.
- Text shapes of persisted fields (nonempty strings, hash alphabet, UUIDs) and configuration schemas: single-branch checks.
- Label snapshots of hourly rows: the last one written wins, so they alone depend on order.
- The upper bounds on the number of services, groups and credentials, and the length limit of group member lists.
- Names of policies and rules beyond their normal form, and the uniqueness of names within a boundary, which the database enforces.
- Audit retention, access lists, API keys, backup, in-flight counters and caches: easier members of the same families.
- Forwarded.SplitQuoted: `trim` removes space, tab, carriage return and line feed only; the other Unicode spaces JavaScript trims are left out.
- Forwarded.ForwardedRoundTrip: what a hop must look like to be an address with a port is left out; the theorem ends at the hop's text.
- Forwarded.PrintThenParse: header length limits and the limit on the length of a chain are checked by the caller; the chain limit is in `ClientNetwork.Resolve`.
- AnchoredRegex.AssertAnchoredLinearRegex: the final compilation, which can still refuse a class with a reversed range, is left out.
- Policy.BoundaryAllowsIff: a host the canonicaliser refuses makes the source throw; here every host has a canonical form.
- HeaderEnforcement.EnforceCredentialHeaderUsage: header maps have no order, and a broker failure other than a refusal is left out.
- CredentialVaultCoordinator.CredentialVaultCoordinator.SetValue: the mutation and idempotency tables share one transaction; only the mutation is modelled, and that a failed recovery forgets the idempotency record is left out.
- CredentialCalls.DeleteReplayIsTruthfulIff: whether the row ends unconfigured or archived follows the resumed intent, not the call, and is not part of the statement.
- HeaderEnforcement.EnforcingTwiceIsOnce: the condition on prefixes and suffixes is sufficient; a text that happens to look like a reference and that the broker refuses does no harm either.
- PolicyBulkCopy.PolicyManagement.BulkCopy: batch membership rows and copy events are left out, and rules keep the order they are stored in.
- LoginAttemptLimiter.LoginAttemptLimiter.RecordFailure: among counters seen equally long ago any may be evicted; the source takes the first inserted.
- GlobalLoginLimiter.AdmissionBound: clock readings are not negative, as for the system clock.
