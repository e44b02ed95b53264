/** The two stores the credential coordinator keeps in step: the credential rows and intent
    rows of the database, and the records of the vault. Every database transaction and every
    vault call is one atomic function on the state. Identifiers are opaque numbers. */
module CredentialState {
  import opened Common

  type CredentialId = nat
  type Locator = nat
  type Secret = nat

  // Number.isSafeInteger accepts up to 2^53 - 1.
  const MAX_SAFE_INTEGER: nat := 0x1F_FFFF_FFFF_FFFF

  datatype Status = Unconfigured | Configured | Disabled | Archived

  datatype VaultState =
    | Idle | PendingCreate | PendingReplace | PendingDelete | PendingArchive | Reconcile

  datatype Operation = Create | Replace | DeleteValue | Archive

  datatype Phase = Prepared | InReconcile

  datatype Category =
    | LocatorMismatch | GenerationMismatch | GenerationUnresolved
    | PriorRecordAbsent | VaultUnavailable

  datatype Row = Row(
    status: Status,
    vaultState: VaultState,
    locator: Option<Locator>,
    generation: Option<nat>,
    authorizationGeneration: nat,
    version: nat)

  datatype Intent = Intent(
    credential: CredentialId,
    operation: Operation,
    locator: Locator,
    expected: Option<nat>,
    target: Option<nat>,
    priorStatus: Status,
    phase: Phase,
    category: Option<Category>,
    approvalKey: Option<nat>)
  {
    predicate SetsValue() { operation.Create? || operation.Replace? }
  }

  // An approval row: an API key approved as the value held at one vault generation.
  datatype Approval = Approval(apiKey: nat, generation: nat)

  datatype Reason =
    | ValueReplace | ValueDelete | ArchiveReason | DisableReason | EnableReason | SelectorReason | DeleteReason

  datatype Event = Event(credential: CredentialId, generation: nat, reason: Reason)

  datatype Record = Record(owner: CredentialId, generation: nat, secret: Secret)

  // `claims` and `everAdded` are history: which credential each locator was generated for, and
  // which credential ids have ever existed. They express that fresh UUIDs never repeat.
  datatype State = State(
    rows: map<CredentialId, Row>,
    intents: map<CredentialId, Intent>,
    approvals: map<CredentialId, Approval>,
    events: seq<Event>,
    records: map<Locator, Record>,
    claims: map<Locator, CredentialId>,
    everAdded: set<CredentialId>)

  datatype DbError = NotFound | Stale | Conflict | Unavailable | AuthenticationFailed

  datatype VaultError = RecordNotFound | RecordConflict | RecordInvalid

  // ---------- the vault's contract ----------

  function VaultCreate(records: map<Locator, Record>, l: Locator, owner: CredentialId, secret: Secret)
    : Result<map<Locator, Record>, VaultError>
  {
    if l in records then Failure(RecordConflict) else Success(records[l := Record(owner, 1, secret)])
  }

  function VaultMetadata(records: map<Locator, Record>, l: Locator, owner: CredentialId): Result<nat, VaultError> {
    if l !in records then Failure(RecordNotFound)
    else if records[l].owner != owner then Failure(RecordInvalid)
    else Success(records[l].generation)
  }

  // A missing generation is refused by the vault's input validation.
  function CheckedRecord(records: map<Locator, Record>, l: Locator, expected: Option<nat>, owner: CredentialId)
    : Result<Record, VaultError>
  {
    if expected.None? then Failure(RecordInvalid)
    else if l !in records then Failure(RecordNotFound)
    else if records[l].owner != owner then Failure(RecordInvalid)
    else if records[l].generation != expected.value then Failure(RecordConflict)
    else Success(records[l])
  }

  function VaultReplace(records: map<Locator, Record>, l: Locator, expected: Option<nat>, owner: CredentialId,
                        secret: Secret)
    : Result<map<Locator, Record>, VaultError>
  {
    match CheckedRecord(records, l, expected, owner)
    case Failure(e) => Failure(e)
    case Success(held) => Success(records[l := Record(owner, held.generation + 1, secret)])
  }

  function VaultDelete(records: map<Locator, Record>, l: Locator, expected: Option<nat>, owner: CredentialId)
    : Result<map<Locator, Record>, VaultError>
  {
    match CheckedRecord(records, l, expected, owner)
    case Failure(e) => Failure(e)
    case Success(_) => Success(records - {l})
  }

  // ---------- coordinator transactions ----------

  function PrepareSet(s: State, id: CredentialId, expectedVersion: nat, freshLocator: Locator, approvalKey: Option<nat>)
    : Result<State, DbError>
  {
    if id !in s.rows then Failure(NotFound) else
    var row := s.rows[id];
    if row.version != expectedVersion then Failure(Stale)
    else if row.vaultState != Idle || row.status == Archived then Failure(Conflict)
    else
      var create := row.status == Unconfigured;
      if create && (row.locator.Some? || row.generation.Some?) then Failure(Unavailable)
      else if !create && (row.locator.None? || row.generation.None?) then Failure(Unavailable)
      else
        var target := if create then 1 else row.generation.value + 1;
        if target > MAX_SAFE_INTEGER then Failure(Conflict)
        else if id in s.intents then Failure(Unavailable)
        else
          var locator := if create then freshLocator else row.locator.value;
          var intent := Intent(id, if create then Create else Replace, locator,
                               if create then None else row.generation, Some(target),
                               row.status, Prepared, None, approvalKey);
          Success(s.(
            rows := s.rows[id := row.(vaultState := if create then PendingCreate else PendingReplace,
                                      authorizationGeneration := row.authorizationGeneration + 1,
                                      version := row.version + 1)],
            intents := s.intents[id := intent],
            events := s.events + [Event(id, row.authorizationGeneration + 1, ValueReplace)],
            claims := if create then s.claims[locator := id] else s.claims))
  }

  function PrepareDelete(s: State, id: CredentialId, expectedVersion: nat, archive: bool): Result<State, DbError> {
    if id !in s.rows then Failure(NotFound) else
    var row := s.rows[id];
    if row.version != expectedVersion then Failure(Stale)
    else if row.vaultState != Idle || !(row.status == Configured || row.status == Disabled)
         || row.locator.None? || row.generation.None? then Failure(Conflict)
    else if id in s.intents then Failure(Unavailable)
    else
      var intent := Intent(id, if archive then Archive else DeleteValue, row.locator.value,
                           row.generation, None, row.status, Prepared, None, None);
      Success(s.(
        rows := s.rows[id := row.(vaultState := if archive then PendingArchive else PendingDelete,
                                  authorizationGeneration := row.authorizationGeneration + 1,
                                  version := row.version + 1)],
        intents := s.intents[id := intent],
        events := s.events + [Event(id, row.authorizationGeneration + 1, if archive then ArchiveReason
                                    else ValueDelete)]))
  }

  // `proof` is a consumed step-up proof; `approvalValid` says the approved key and its approver are
  // still active. Only an approval-carrying intent looks at either.
  function FinalizeSet(s: State, intent: Intent, generation: nat, proof: bool, approvalValid: bool)
    : Result<State, DbError>
  {
    var id := intent.credential;
    if intent.approvalKey.Some? && !proof then Failure(AuthenticationFailed)
    else if id !in s.rows || s.rows[id].vaultState !in {PendingCreate, PendingReplace, Reconcile} then Failure(Stale)
    else if intent.approvalKey.Some? && !approvalValid then Failure(Conflict)
    else
      var row := s.rows[id];
      Success(s.(
        rows := s.rows[id := row.(status := if intent.priorStatus == Disabled then Disabled else Configured,
                                  vaultState := Idle,
                                  locator := Some(intent.locator),
                                  generation := Some(generation),
                                  version := row.version + 1)],
        approvals := if intent.approvalKey.Some? then s.approvals[id := Approval(intent.approvalKey.value, generation)]
                     else s.approvals - {id},
        intents := s.intents - {id}))
  }

  function FinalizeDelete(s: State, intent: Intent): Result<State, DbError> {
    var id := intent.credential;
    if id !in s.rows || s.rows[id].vaultState !in {PendingDelete, PendingArchive, Reconcile} then Failure(Stale)
    else
      var row := s.rows[id];
      Success(s.(
        rows := s.rows[id := row.(status := if intent.operation == Archive then Archived else Unconfigured,
                                  vaultState := Idle, locator := None, generation := None,
                                  version := row.version + 1)],
        approvals := s.approvals - {id},
        intents := s.intents - {id}))
  }

  function Rollback(s: State, intent: Intent): Result<State, DbError> {
    var id := intent.credential;
    if id !in s.rows || s.rows[id].vaultState == Idle then Failure(Stale)
    else
      var row := s.rows[id];
      Success(s.(
        rows := s.rows[id := row.(status := intent.priorStatus, vaultState := Idle, version := row.version + 1)],
        intents := s.intents - {id}))
  }

  function MarkReconcile(s: State, intent: Intent, category: Category): State {
    var id := intent.credential;
    s.(intents := if id in s.intents
                  then s.intents[id := s.intents[id].(phase := InReconcile, category := Some(category))]
                  else s.intents,
       rows := if id in s.rows && s.rows[id].vaultState != Idle
               then s.rows[id := s.rows[id].(vaultState := Reconcile, version := s.rows[id].version + 1)]
               else s.rows)
  }

  function Enable(s: State, id: CredentialId, expectedVersion: nat, observedGeneration: nat): Result<State, DbError> {
    if id !in s.rows then Failure(NotFound) else
    var row := s.rows[id];
    if row.version != expectedVersion || row.status != Disabled || row.vaultState != Idle
       || row.generation != Some(observedGeneration) then Failure(Stale)
    else Success(BumpAuthorization(s, id, Configured, EnableReason))
  }

  // ---------- lifecycle mutators of credential management ----------

  function BumpAuthorization(s: State, id: CredentialId, status: Status, reason: Reason): State
    requires id in s.rows
  {
    var row := s.rows[id];
    s.(rows := s.rows[id := row.(status := status,
                                 authorizationGeneration := row.authorizationGeneration + 1,
                                 version := row.version + 1)],
       events := s.events + [Event(id, row.authorizationGeneration + 1, reason)])
  }

  function Add(s: State, id: CredentialId): Result<State, DbError> {
    if id in s.everAdded then Failure(Conflict)
    else Success(s.(rows := s.rows[id := Row(Unconfigured, Idle, None, None, 0, 1)], everAdded := s.everAdded + {id}))
  }

  function UpdateProfile(s: State, id: CredentialId, expectedVersion: nat): Result<State, DbError> {
    if id !in s.rows then Failure(NotFound)
    else if s.rows[id].status == Archived || s.rows[id].vaultState != Idle then Failure(Conflict)
    else if s.rows[id].version != expectedVersion then Failure(Stale)
    else Success(s.(rows := s.rows[id := s.rows[id].(version := s.rows[id].version + 1)]))
  }

  function ReplaceAssignments(s: State, id: CredentialId, expectedVersion: nat): Result<State, DbError> {
    if id !in s.rows then Failure(NotFound)
    else if s.rows[id].status == Archived || s.rows[id].vaultState != Idle then Failure(Conflict)
    else if s.rows[id].version != expectedVersion then Failure(Stale)
    else Success(BumpAuthorization(s, id, s.rows[id].status, SelectorReason))
  }

  function Disable(s: State, id: CredentialId, expectedVersion: nat): Result<State, DbError> {
    if id !in s.rows then Failure(NotFound)
    else if s.rows[id].status != Configured || s.rows[id].vaultState != Idle then Failure(Conflict)
    else if s.rows[id].version != expectedVersion then Failure(Stale)
    else Success(BumpAuthorization(s, id, Disabled, DisableReason))
  }

  function ArchiveUnconfigured(s: State, id: CredentialId, expectedVersion: nat): Result<State, DbError> {
    if id !in s.rows then Failure(NotFound)
    else if s.rows[id].status != Unconfigured || s.rows[id].vaultState != Idle then Failure(Conflict)
    else if s.rows[id].version != expectedVersion then Failure(Stale)
    else Success(BumpAuthorization(s, id, Archived, ArchiveReason))
  }

  // Deleting the row cascades to its approval and intent rows.
  function DeleteArchived(s: State, id: CredentialId, expectedVersion: nat): Result<State, DbError> {
    if id !in s.rows then Failure(NotFound)
    else if s.rows[id].status != Archived || s.rows[id].vaultState != Idle then Failure(Conflict)
    else if s.rows[id].version != expectedVersion then Failure(Stale)
    else Success(s.(rows := s.rows - {id}, intents := s.intents - {id}, approvals := s.approvals - {id},
                    events := s.events + [Event(id, s.rows[id].authorizationGeneration + 1, DeleteReason)]))
  }
}
