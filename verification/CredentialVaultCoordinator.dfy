/** The coordinator and the vault record store as objects whose methods update their tables in
    place, each proved against the transaction functions of CredentialState. */
module CredentialVaultCoordinator {
  import opened Common
  import opened CredentialState
  import opened CredentialProtocol
  import opened CredentialRecovery
  import opened CredentialCalls

  class VaultRecordStore {
    var records: map<Locator, Record>

    constructor ()
      ensures records == map[]
    {
      records := map[];
    }

    method Create(l: Locator, owner: CredentialId, secret: Secret) returns (r: Result<nat, VaultError>)
      modifies this
      ensures match VaultCreate(old(records), l, owner, secret)
              case Success(m) => records == m && r == Success(1)
              case Failure(e) => records == old(records) && r == Failure(e)
    {
      if l in records { return Failure(RecordConflict); }
      records := records[l := Record(owner, 1, secret)];
      r := Success(1);
    }

    method Read(l: Locator, expected: Option<nat>, owner: CredentialId) returns (r: Result<Record, VaultError>)
      ensures r == CheckedRecord(records, l, expected, owner)
    {
      if expected.None? { return Failure(RecordInvalid); }
      if l !in records { return Failure(RecordNotFound); }
      if records[l].owner != owner { return Failure(RecordInvalid); }
      if records[l].generation != expected.value { return Failure(RecordConflict); }
      r := Success(records[l]);
    }

    method Replace(l: Locator, expected: Option<nat>, owner: CredentialId, secret: Secret)
      returns (r: Result<nat, VaultError>)
      modifies this
      ensures match VaultReplace(old(records), l, expected, owner, secret)
              case Success(m) => records == m && r == Success(m[l].generation)
              case Failure(e) => records == old(records) && r == Failure(e)
    {
      var existing := Read(l, expected, owner);
      if existing.Failure? { return Failure(existing.error); }
      records := records[l := Record(owner, existing.value.generation + 1, secret)];
      r := Success(existing.value.generation + 1);
    }

    method Delete(l: Locator, expected: Option<nat>, owner: CredentialId) returns (r: Result<(), VaultError>)
      modifies this
      ensures match VaultDelete(old(records), l, expected, owner)
              case Success(m) => records == m && r == Success(())
              case Failure(e) => records == old(records) && r == Failure(e)
    {
      var existing := Read(l, expected, owner);
      if existing.Failure? { return Failure(existing.error); }
      records := records - {l};
      r := Success(());
    }
  }

  class CredentialVaultCoordinator {
    var rows: map<CredentialId, Row>
    var intents: map<CredentialId, Intent>
    var approvals: map<CredentialId, Approval>
    var events: seq<Event>
    const vault: VaultRecordStore
    ghost var claims: map<Locator, CredentialId>
    ghost var everAdded: set<CredentialId>

    ghost function Stores(): State
      reads this, vault
    {
      State(rows, intents, approvals, events, vault.records, claims, everAdded)
    }

    constructor (vault: VaultRecordStore)
      requires vault.records == map[]
      ensures this.vault == vault && Stores() == EMPTY && Inv(Stores())
    {
      this.vault := vault;
      rows, intents, approvals, events := map[], map[], map[], [];
      claims, everAdded := map[], {};
    }

    method PrepareSetMutation(id: CredentialId, expectedVersion: nat, freshLocator: Locator, approvalKey: Option<nat>)
      returns (r: Result<Intent, DbError>)
      modifies this
      ensures match PrepareSet(old(Stores()), id, expectedVersion, freshLocator, approvalKey)
              case Success(t) => Stores() == t && id in t.intents && r == Success(t.intents[id])
              case Failure(e) => Stores() == old(Stores()) && r == Failure(e)
    {
      if id !in rows { return Failure(NotFound); }
      var current := rows[id];
      if current.version != expectedVersion { return Failure(Stale); }
      if current.vaultState != Idle || current.status == Archived { return Failure(Conflict); }
      var create := current.status == Unconfigured;
      if create && (current.locator.Some? || current.generation.Some?) { return Failure(Unavailable); }
      if !create && (current.locator.None? || current.generation.None?) { return Failure(Unavailable); }
      var locator := if create then freshLocator else current.locator.value;
      var target := if create then 1 else current.generation.value + 1;
      if target > MAX_SAFE_INTEGER { return Failure(Conflict); }
      if id in intents { return Failure(Unavailable); }
      var intent := Intent(id, if create then Create else Operation.Replace, locator,
                           if create then None else current.generation, Some(target),
                           current.status, Prepared, None, approvalKey);
      intents := intents[id := intent];
      if create { claims := claims[locator := id]; }
      var generation := current.authorizationGeneration + 1;
      rows := rows[id := current.(vaultState := if create then PendingCreate else PendingReplace,
                                  authorizationGeneration := generation, version := current.version + 1)];
      events := events + [Event(id, generation, ValueReplace)];
      r := Success(intent);
    }

    method PrepareDeleteMutation(id: CredentialId, expectedVersion: nat, archive: bool)
      returns (r: Result<Intent, DbError>)
      modifies this
      ensures match PrepareDelete(old(Stores()), id, expectedVersion, archive)
              case Success(t) => Stores() == t && id in t.intents && r == Success(t.intents[id])
              case Failure(e) => Stores() == old(Stores()) && r == Failure(e)
    {
      if id !in rows { return Failure(NotFound); }
      var current := rows[id];
      if current.version != expectedVersion { return Failure(Stale); }
      if current.vaultState != Idle || !(current.status == Configured || current.status == Disabled)
         || current.locator.None? || current.generation.None? { return Failure(Conflict); }
      if id in intents { return Failure(Unavailable); }
      var intent := Intent(id, if archive then Archive else DeleteValue, current.locator.value,
                           current.generation, None, current.status, Prepared, None, None);
      intents := intents[id := intent];
      var generation := current.authorizationGeneration + 1;
      rows := rows[id := current.(vaultState := if archive then PendingArchive else PendingDelete,
                                  authorizationGeneration := generation, version := current.version + 1)];
      events := events + [Event(id, generation, if archive then ArchiveReason else ValueDelete)];
      r := Success(intent);
    }

    method FinalizeSetMutation(intent: Intent, generation: nat, proof: bool, approvalValid: bool)
      returns (r: Option<DbError>)
      modifies this
      ensures match FinalizeSet(old(Stores()), intent, generation, proof, approvalValid)
              case Success(t) => Stores() == t && r == None
              case Failure(e) => Stores() == old(Stores()) && r == Some(e)
    {
      var id := intent.credential;
      if intent.approvalKey.Some? && !proof { return Some(AuthenticationFailed); }
      if id !in rows || rows[id].vaultState !in {PendingCreate, PendingReplace, VaultState.Reconcile} {
        return Some(Stale);
      }
      // A thrown error aborts the transaction, so the checks come before the writes.
      if intent.approvalKey.Some? && !approvalValid { return Some(Conflict); }
      rows := rows[id := rows[id].(status := if intent.priorStatus == Disabled then Disabled else Configured,
                                   vaultState := Idle, locator := Some(intent.locator), generation := Some(generation),
                                   version := rows[id].version + 1)];
      approvals := approvals - {id};
      if intent.approvalKey.Some? {
        approvals := approvals[id := Approval(intent.approvalKey.value, generation)];
        assert approvals == old(approvals)[id := Approval(intent.approvalKey.value, generation)];
      }
      intents := intents - {id};
      r := None;
    }

    method FinalizeDeleteMutation(intent: Intent) returns (r: Option<DbError>)
      modifies this
      ensures match FinalizeDelete(old(Stores()), intent)
              case Success(t) => Stores() == t && r == None
              case Failure(e) => Stores() == old(Stores()) && r == Some(e)
    {
      var id := intent.credential;
      if id !in rows || rows[id].vaultState !in {PendingDelete, PendingArchive, VaultState.Reconcile} {
        return Some(Stale);
      }
      approvals := approvals - {id};
      rows := rows[id := rows[id].(status := if intent.operation == Archive then Archived else Unconfigured,
                                   vaultState := Idle, locator := None, generation := None,
                                     version := rows[id].version + 1)];
      intents := intents - {id};
      r := None;
    }

    method RollbackMutation(intent: Intent) returns (r: Option<DbError>)
      modifies this
      ensures match Rollback(old(Stores()), intent)
              case Success(t) => Stores() == t && r == None
              case Failure(e) => Stores() == old(Stores()) && r == Some(e)
    {
      var id := intent.credential;
      if id !in rows || rows[id].vaultState == Idle { return Some(Stale); }
      rows := rows[id := rows[id].(status := intent.priorStatus, vaultState := Idle, version := rows[id].version + 1)];
      intents := intents - {id};
      r := None;
    }

    // A failed mark is swallowed.
    method MarkReconcileMutation(intent: Intent, category: Category, databaseUp: bool)
      modifies this
      ensures Stores() == if databaseUp then MarkReconcile(old(Stores()), intent, category) else old(Stores())
    {
      if databaseUp {
        var id := intent.credential;
        if id in intents {
          intents := intents[id := intents[id].(phase := InReconcile, category := Some(category))];
        }
        if id in rows && rows[id].vaultState != Idle {
          rows := rows[id := rows[id].(vaultState := VaultState.Reconcile, version := rows[id].version + 1)];
        }
      }
    }

    method ReconcileDelete(intent: Intent, env: Environment) returns (outcome: Outcome)
      requires CheckedRecord(vault.records, intent.locator, intent.expected, intent.credential).Success?
      modifies this, vault
      ensures (Stores(), outcome) == RecoverDelete(old(Stores()), intent, intent.expected.value, env)
    {
      if env.deleteApplied {
        var deleted := vault.Delete(intent.locator, intent.expected, intent.credential);
        if env.deleteReplied && env.databaseUp {
          var e := FinalizeDeleteMutation(intent);
          if e.None? { return Reconciled; }
        }
      }
      MarkReconcileMutation(intent, GenerationUnresolved, env.markUp);
      outcome := Unresolved;
    }

    method ReconcileSet(intent: Intent, generation: nat, env: Environment) returns (outcome: Outcome)
      modifies this
      ensures (Stores(), outcome) == RecoverSet(old(Stores()), intent, generation, env)
    {
      if intent.target == Some(generation) {
        if env.databaseUp {
          var e := FinalizeSetMutation(intent, generation, env.proof, env.approvalValid);
          if e.None? { return Reconciled; }
        }
        MarkReconcileMutation(intent, VaultUnavailable, env.markUp);
        return Unresolved;
      }
      if intent.operation == Operation.Replace && intent.expected == Some(generation) {
        if env.databaseUp {
          var e := RollbackMutation(intent);
          if e.None? { return Reconciled; }
        }
        MarkReconcileMutation(intent, VaultUnavailable, env.markUp);
        return Unresolved;
      }
      MarkReconcileMutation(intent, GenerationUnresolved, env.markUp);
      outcome := Unresolved;
    }

    method ReconcileAbsent(intent: Intent, env: Environment) returns (outcome: Outcome)
      modifies this
      ensures (Stores(), outcome) == RecoverAbsent(old(Stores()), intent, env)
    {
      if intent.operation == Operation.Replace {
        MarkReconcileMutation(intent, PriorRecordAbsent, env.markUp);
        return Unresolved;
      }
      if !env.databaseUp { return Threw; }
      var e: Option<DbError>;
      if intent.operation == Create {
        e := RollbackMutation(intent);
      } else {
        e := FinalizeDeleteMutation(intent);
      }
      outcome := if e.None? then Reconciled else Threw;
    }

    method TryReconcileNow(intent: Intent, env: Environment) returns (outcome: Outcome)
      modifies this, vault
      ensures (Stores(), outcome) == TryReconcile(old(Stores()), intent, env)
    {
      var metadata := VaultMetadata(vault.records, intent.locator, intent.credential);
      if !env.vaultReachable || (metadata.Failure? && !metadata.error.RecordNotFound?) {
        MarkReconcileMutation(intent, VaultUnavailable, env.markUp);
        outcome := Unresolved;
      } else if metadata.Failure? {
        outcome := ReconcileAbsent(intent, env);
      } else if intent.SetsValue() {
        outcome := ReconcileSet(intent, metadata.value, env);
      } else if intent.expected == Some(metadata.value) {
        outcome := ReconcileDelete(intent, env);
      } else {
        MarkReconcileMutation(intent, GenerationUnresolved, env.markUp);
        outcome := Unresolved;
      }
    }

    method ReadForEnable(id: CredentialId, expectedVersion: nat) returns (r: Result<Row, DbError>)
      ensures r == EnableCheck(Stores(), id, expectedVersion)
    {
      if id !in rows { return Failure(NotFound); }
      var state := rows[id];
      if state.status != Disabled || state.vaultState != Idle || state.version != expectedVersion
         || state.locator.None? || state.generation.None? {
        return Failure(if state.version == expectedVersion then Conflict else Stale);
      }
      r := Success(state);
    }

    method ConfirmRecord(id: CredentialId, state: Row, reachable: bool) returns (r: Result<nat, DbError>)
      ensures r == EnableConfirm(vault.records, id, state, reachable)
    {
      if !reachable || state.locator.None? { return Failure(Unavailable); }
      var metadata := VaultMetadata(vault.records, state.locator.value, id);
      if metadata.Failure? { return Failure(Unavailable); }
      if state.generation != Some(metadata.value) { return Failure(Conflict); }
      r := Success(metadata.value);
    }

    method CommitEnable(id: CredentialId, expectedVersion: nat, observed: nat) returns (r: Option<DbError>)
      modifies this
      ensures match Enable(old(Stores()), id, expectedVersion, observed)
              case Success(t) => Stores() == t && r == None
              case Failure(e) => Stores() == old(Stores()) && r == Some(e)
    {
      if id !in rows { return Some(NotFound); }
      var current := rows[id];
      if current.version != expectedVersion { return Some(Stale); }
      var generation := current.authorizationGeneration + 1;
      if current.status != Disabled || current.vaultState != Idle || current.generation != Some(observed) {
        return Some(Stale);
      }
      rows := rows[id := current.(status := Configured, authorizationGeneration := generation,
                                  version := current.version + 1)];
      events := events + [Event(id, generation, EnableReason)];
      r := None;
    }

    // The call as a whole when nothing comes between its three stretches.
    method EnableCredential(id: CredentialId, expectedVersion: nat, reachable: bool) returns (r: Option<DbError>)
      modifies this
      ensures match EnableOutcome(old(Stores()), id, expectedVersion, reachable)
              case Success(t) => Stores() == t && r == None
              case Failure(e) => Stores() == old(Stores()) && r == Some(e)
    {
      var state := ReadForEnable(id, expectedVersion);
      if state.Failure? { return Some(state.error); }
      var observed := ConfirmRecord(id, state.value, reachable);
      if observed.Failure? { return Some(observed.error); }
      r := CommitEnable(id, expectedVersion, observed.value);
    }

    method RecoverAnswer(intent: Intent, env: Environment) returns (ok: bool)
      modifies this, vault
      ensures (Stores(), ok) == AnswerAfterRecovery(old(Stores()), intent, env)
    {
      var outcome := TryReconcileNow(intent, env);
      ok := outcome == Reconciled && intent.credential in rows
        && rows[intent.credential].status in {Configured, Disabled};
    }

    method FinishSet(intent: Intent, generation: nat, finalizes: bool, env: Environment) returns (ok: bool)
      modifies this, vault
      ensures (Stores(), ok) == AnswerAfterReply(old(Stores()), intent, generation, finalizes, env)
    {
      if intent.target != Some(generation) {
        MarkReconcileMutation(intent, GenerationMismatch, env.markUp);
        return false;
      }
      if finalizes {
        var e := FinalizeSetMutation(intent, generation, env.proof, env.approvalValid);
        if e.None? { return true; }
      }
      ok := RecoverAnswer(intent, env);
    }

    method CallSet(intent: Intent, secret: Secret) returns (reply: Result<nat, VaultError>)
      modifies vault
      ensures match SetCall(old(vault.records), intent, secret)
              case Success(m) => vault.records == m && intent.locator in m
                && reply == Success(m[intent.locator].generation)
              case Failure(e) => vault.records == old(vault.records) && reply == Failure(e)
    {
      if intent.operation == Create {
        reply := vault.Create(intent.locator, intent.credential, secret);
      } else {
        reply := vault.Replace(intent.locator, intent.expected, intent.credential, secret);
      }
    }

    method RunSet(intent: Intent, secret: Secret, faults: Faults, env: Environment) returns (ok: bool)
      modifies this, vault
      ensures (Stores(), ok) == AnswerAfterPrepare(old(Stores()), intent, secret, faults, env)
    {
      if faults.applied {
        var reply := CallSet(intent, secret);
        if reply.Success? && faults.replied {
          ok := FinishSet(intent, reply.value, faults.finalizes, env);
          return;
        }
      }
      ok := RecoverAnswer(intent, env);
    }

    method SetValue(id: CredentialId, expectedVersion: nat, freshLocator: Locator, secret: Secret,
                    approvalKey: Option<nat>,
                    replayed: bool, faults: Faults, env: Environment) returns (ok: bool)
      modifies this, vault
      ensures (Stores(), ok) ==
                if replayed then SetReplayOutcome(old(Stores()), id, secret, faults, env)
                else SetValueOutcome(old(Stores()), id, expectedVersion, freshLocator, secret, approvalKey, faults, env)
    {
      if replayed {
        if id !in intents { return id in rows; }
        ok := RunSet(intents[id], secret, faults, env);
        return;
      }
      var prepared := PrepareSetMutation(id, expectedVersion, freshLocator, approvalKey);
      if prepared.Failure? { return false; }
      ok := RunSet(prepared.value, secret, faults, env);
    }

    method RunDelete(intent: Intent, faults: Faults, env: Environment) returns (ok: bool)
      modifies this, vault
      ensures (Stores(), ok) == DeleteAfterPrepare(old(Stores()), intent, faults, env)
    {
      ok := DeleteAndFinalize(intent, faults);
      if !ok { ok := RecoverDeleteAnswer(intent, env); }
    }

    // The vault call and its transaction; `done` when both were answered.
    method DeleteAndFinalize(intent: Intent, faults: Faults) returns (done: bool)
      modifies this, vault
      ensures var call := DeleteCall(old(vault.records), intent);
              var t := if call.Success? && faults.applied then old(Stores()).(records := call.value) else old(Stores());
              var r := FinalizeDelete(t, intent);
              && done == (call.Success? && faults.applied && faults.replied && faults.finalizes && r.Success?)
              && Stores() == if done then r.value else t
    {
      done := false;
      if faults.applied {
        var reply := vault.Delete(intent.locator, intent.expected, intent.credential);
        if reply.Success? && faults.replied && faults.finalizes {
          var e := FinalizeDeleteMutation(intent);
          done := e.None?;
        }
      }
    }

    method RecoverDeleteAnswer(intent: Intent, env: Environment) returns (ok: bool)
      modifies this, vault
      ensures (Stores(), ok) == DeleteAfterRecovery(old(Stores()), intent, env)
    {
      var outcome := TryReconcileNow(intent, WithoutProof(env));
      ok := outcome == Reconciled;
    }

    method DeleteValueNow(id: CredentialId, expectedVersion: nat, archive: bool, replayed: bool, faults: Faults,
                          env: Environment)
      returns (ok: bool)
      modifies this, vault
      ensures (Stores(), ok) ==
                if replayed then DeleteReplayOutcome(old(Stores()), id, faults, env)
                else DeleteValueOutcome(old(Stores()), id, expectedVersion, archive, faults, env)
    {
      if replayed {
        if id !in intents { return id in rows; }
        ok := RunDelete(intents[id], faults, env);
        return;
      }
      var prepared := PrepareDeleteMutation(id, expectedVersion, archive);
      if prepared.Failure? { return false; }
      ok := RunDelete(prepared.value, faults, env);
    }

    // `batch` is what the query read at the start: the oldest stored intents, at most 1000.
    method ReconcilePending(batch: seq<Intent>, envs: CredentialId -> Environment)
      returns (reconciled: nat, unresolved: nat, threw: bool)
      requires RunInv(Stores()) && IsBatch(Stores(), batch) && |batch| <= 1000
      modifies this, vault
      ensures Pass(Stores(), reconciled, threw) == ReconcileAll(old(Stores()), batch, envs)
      ensures !threw ==> reconciled + unresolved == |batch|
      ensures (forall id :: envs(id).Reachable()) ==>
                !threw && RunInv(Stores()) && unresolved == StuckCount(old(Stores()), batch)
      ensures (forall id :: envs(id).Reachable())
              && (forall id | id in old(intents) :: old(intents)[id].approvalKey.None?)
              && Covers(batch, old(Stores()))
              ==> intents.Keys == StrandedIds(old(Stores())) && (StrandedIds(old(Stores())) == {} ==> unresolved == 0)
    {
      reconciled, unresolved, threw := 0, 0, false;
      ghost var start := Stores();
      var i := 0;
      while i < |batch| && !threw
        invariant 0 <= i <= |batch| && reconciled <= i
        invariant Pass(Stores(), reconciled, threw) == ReconcileAll(start, batch[..i], envs)
      {
        assert batch[..i + 1][..i] == batch[..i];
        var outcome := TryReconcileNow(batch[i], WithoutProof(envs(batch[i].credential)));
        if outcome == Reconciled { reconciled := reconciled + 1; }
        threw := outcome == Threw;
        i := i + 1;
      }
      ThrownPassStays(start, batch, envs, i);
      assert batch[..|batch|] == batch;
      unresolved := |batch| - reconciled;
      if forall id :: envs(id).Reachable() {
        PassSettlesBatch(start, batch, envs);
        if (forall id | id in start.intents :: start.intents[id].approvalKey.None?) && Covers(batch, start) {
          PassLeavesNone(start, batch, envs);
        }
      }
    }
  }

  lemma {:induction false} ThrownPassStays(s: State, batch: seq<Intent>, envs: CredentialId -> Environment, i: nat)
    requires i <= |batch| && (ReconcileAll(s, batch[..i], envs).threw || i == |batch|)
    ensures ReconcileAll(s, batch, envs) == ReconcileAll(s, batch[..i], envs)
    decreases |batch|
  {
    if i < |batch| {
      var init := batch[..|batch| - 1];
      assert init[..i] == batch[..i];
      ThrownPassStays(s, init, envs, i);
    } else {
      assert batch[..i] == batch;
    }
  }
}
