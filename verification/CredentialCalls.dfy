/** setValue and deleteValue as whole calls, from the prepared or resumed intent to the answer: when
    an answer of success is true, and when a replay that resumes an intent of another kind is safe. */
module CredentialCalls {
  import opened Common
  import opened CredentialState
  import opened CredentialProtocol
  import opened CredentialSafety
  import opened CredentialRecovery
  import opened CredentialGenerations

  // ---------- setValue as one function of the stores and their faults ----------

  // Whether the vault call took effect and was answered, and whether the finalizing transaction commits.
  datatype Faults = Faults(applied: bool, replied: bool, finalizes: bool)

  // What setValue answers once it has fallen back to recovery: a settled credential that holds a
  // value counts as success.
  function AnswerAfterRecovery(s: State, intent: Intent, env: Environment): (State, bool) {
    var r := TryReconcile(s, intent, env);
    (r.0, r.1 == Reconciled && intent.credential in r.0.rows
     && r.0.rows[intent.credential].status in {Configured, Disabled})
  }

  // The vault call was answered with the generation now stored.
  function AnswerAfterReply(s: State, intent: Intent, generation: nat, finalizes: bool, env: Environment)
    : (State, bool)
  {
    if intent.target != Some(generation) then (Marked(s, intent, GenerationMismatch, env).0, false)
    else
      var r := FinalizeSet(s, intent, generation, env.proof, env.approvalValid);
      if finalizes && r.Success? then (r.value, true) else AnswerAfterRecovery(s, intent, env)
  }

  function AnswerAfterPrepare(s: State, intent: Intent, secret: Secret, faults: Faults, env: Environment)
    : (State, bool)
  {
    var call := SetCall(s.records, intent, secret);
    var t := if call.Success? && faults.applied then s.(records := call.value) else s;
    if call.Failure? || !faults.applied || !faults.replied || intent.locator !in t.records then
      AnswerAfterRecovery(t, intent, env)
    else AnswerAfterReply(t, intent, t.records[intent.locator].generation, faults.finalizes, env)
  }

  function SetValueOutcome(s: State, id: CredentialId, version: nat, freshLocator: Locator, secret: Secret,
                           key: Option<nat>,
                           faults: Faults, env: Environment): (State, bool)
  {
    var prepared := PrepareSet(s, id, version, freshLocator, key);
    if prepared.Failure? || id !in prepared.value.intents then (s, false)
    else AnswerAfterPrepare(prepared.value, prepared.value.intents[id], secret, faults, env)
  }

  // The record the credential's row names.
  function Held(s: State, id: CredentialId): Option<Record> {
    if id in s.rows && s.rows[id].locator.Some? && s.rows[id].locator.value in s.records
    then Some(s.records[s.rows[id].locator.value]) else None
  }

  lemma PreparedSet(s: State, id: CredentialId, version: nat, freshLocator: Locator, key: Option<nat>)
    requires Clear(s, id) && freshLocator !in s.claims && PrepareSet(s, id, version, freshLocator, key).Success?
    ensures var s1 := PrepareSet(s, id, version, freshLocator, key).value;
            && Clear(s1, id) && id in s1.rows && id in s1.intents && Consistent(s1, id)
            && s1.records == s.records && id in s.rows && id !in s.intents && Consistent(s, id)
            && s1.intents[id].SetsValue()
            && (s1.intents[id].operation == Create <==> s.rows[id].status == Unconfigured)
            && (s1.intents[id].operation == Create ==>
                  s1.intents[id].locator == freshLocator && freshLocator !in s.records)
            && (s1.intents[id].operation == Replace ==>
                  Holds(s, id, s1.intents[id].locator, s1.intents[id].expected.value)
                  && Held(s, id) == Some(s.records[s1.intents[id].locator]))
  {
    BeginSetTouches(s, id, version, freshLocator, key);
    ClearAfterStepIff(System(s, map[]), BeginSet(id, version, freshLocator, key), id);
    var s1 := PrepareSet(s, id, version, freshLocator, key).value;
    assert Consistent(s, id) && Consistent(s1, id);
    forall l | l in s.records ensures l in s.claims { assert Owned(s, l); }
  }

  // A set call against the state its own prepare left behind succeeds, and its effect is exact.
  lemma SetCallEffect(s1: State, id: CredentialId, secret: Secret)
    requires Clear(s1, id) && id in s1.intents && s1.intents[id].SetsValue() && s1.intents[id].credential == id
    requires if s1.intents[id].operation == Create then s1.intents[id].locator !in s1.records
             else s1.intents[id].expected.Some? && Holds(s1, id, s1.intents[id].locator, s1.intents[id].expected.value)
    ensures SetCall(s1.records, s1.intents[id], secret).Success? && s1.intents[id].target.Some?
    ensures Clear(AfterSetCall(s1, s1.intents[id], secret), id)
    ensures AfterSetCall(s1, s1.intents[id], secret)
         == s1.(records := s1.records[s1.intents[id].locator := Record(id, s1.intents[id].target.value, secret)])
  {
    assert Consistent(s1, id);
    SetCallKeepsClearIff(s1, id, secret);
  }

  // An answer of success shows the record at the intent's locator, whatever it is.
  ghost predicate Answers(s: State, intent: Intent, a: (State, bool)) {
    && Clear(a.0, intent.credential)
    && (a.1 ==> && intent.credential !in a.0.intents && intent.credential in a.0.rows && a.0.records == s.records
                && intent.locator in s.records
                && Held(a.0, intent.credential) == Some(s.records[intent.locator]))
  }

  lemma SettledAnswer(s: State, id: CredentialId, env: Environment)
    requires id in s.rows && id in s.intents && Consistent(s, id) && s.intents[id].SetsValue()
    ensures var a, intent := AnswerAfterRecovery(s, s.intents[id], env), s.intents[id];
            a.1 ==> && id !in a.0.intents && id in a.0.rows && a.0.records == s.records
                    && intent.locator in s.records && Held(a.0, id) == Some(s.records[intent.locator])
  {
    var intent := s.intents[id];
    if env.vaultReachable {
      if intent.locator !in s.records {
        assert TryReconcile(s, intent, env) == RecoverAbsent(s, intent, env);
      } else {
        assert TryReconcile(s, intent, env) == RecoverSet(s, intent, s.records[intent.locator].generation, env);
      }
    }
  }

  lemma RecoveredSet(s: State, id: CredentialId, env: Environment)
    requires Clear(s, id) && id in s.intents && s.intents[id].SetsValue() && s.intents[id].credential == id
    ensures Answers(s, s.intents[id], AnswerAfterRecovery(s, s.intents[id], env))
  {
    RecoveringInv(s, id);
    SettledAnswer(s, id, env);
    RecoveryKeepsInv(s, id, env);
  }

  lemma FinalizedSet(s: State, id: CredentialId, proof: bool, approvalValid: bool)
    requires Clear(s, id) && id in s.intents && s.intents[id].SetsValue()
    requires s.intents[id].target.Some? && Holds(s, id, s.intents[id].locator, s.intents[id].target.value)
    ensures var r := FinalizeSet(s, s.intents[id], s.intents[id].target.value, proof, approvalValid);
            r.Success? ==> Clear(r.value, id)
  {
    var g := s.intents[id].target.value;
    assert Tracked(s, id);
    TakenInv(s, id, SetCaller, AtGeneration(g));
    ClearAfterStepIff(Taken(s, id, SetCaller, AtGeneration(g)), Finalize(id, proof, approvalValid), id);
  }

  lemma RepliedSet(s: State, id: CredentialId, finalizes: bool, env: Environment)
    requires Clear(s, id) && id in s.intents && s.intents[id].SetsValue() && s.intents[id].credential == id
    requires s.intents[id].target.Some? && Holds(s, id, s.intents[id].locator, s.intents[id].target.value)
    ensures Answers(s, s.intents[id], AnswerAfterReply(s, s.intents[id], s.intents[id].target.value, finalizes, env))
  {
    var intent := s.intents[id];
    if finalizes && FinalizeSet(s, intent, intent.target.value, env.proof, env.approvalValid).Success? {
      FinalizedSet(s, id, env.proof, env.approvalValid);
    } else {
      RecoveredSet(s, id, env);
    }
  }

  // The stores after the vault call of a set intent, whose effect a failing call may lack.
  function CalledSet(s: State, intent: Intent, secret: Secret, applied: bool): State {
    if applied then AfterSetCall(s, intent, secret) else s
  }

  lemma CalledSetKeepsInv(s: State, id: CredentialId, secret: Secret, applied: bool)
    requires Clear(s, id) && id in s.intents && s.intents[id].SetsValue()
    ensures Clear(CalledSet(s, s.intents[id], secret, applied), id) && s.intents[id].credential == id
    ensures SetCall(s.records, s.intents[id], secret).Success? && applied ==>
              && s.intents[id].target.Some?
              && CalledSet(s, s.intents[id], secret, applied).records
                 == s.records[s.intents[id].locator := Record(id, s.intents[id].target.value, secret)]
  {
    assert Consistent(s, id);
    SetCallKeepsClearIff(s, id, secret);
  }

  // Any set intent, prepared or resumed: success shows the record its vault call left behind.
  lemma PreparedAnswer(s: State, id: CredentialId, secret: Secret, faults: Faults, env: Environment)
    requires Clear(s, id) && id in s.intents && s.intents[id].SetsValue()
    ensures Answers(CalledSet(s, s.intents[id], secret, faults.applied), s.intents[id],
                    AnswerAfterPrepare(s, s.intents[id], secret, faults, env))
  {
    CalledSetKeepsInv(s, id, secret, faults.applied);
    var t := CalledSet(s, s.intents[id], secret, faults.applied);
    if SetCall(s.records, s.intents[id], secret).Success? && faults.applied && faults.replied {
      RepliedSet(t, id, faults.finalizes, env);
    } else {
      RecoveredSet(t, id, env);
    }
  }

  /** When setValue answers success the credential is settled and holds the submitted secret exactly
      when the vault call took effect; otherwise it still holds the value it had before, which only
      happens to a credential that was not unconfigured. Whatever it answers, the invariant holds. */
  lemma SetValueStoresIffApplied(s: State, id: CredentialId, version: nat, freshLocator: Locator, secret: Secret,
                                 key: Option<nat>,
                                 faults: Faults, env: Environment)
    requires Clear(s, id) && freshLocator !in s.claims
    ensures var r := SetValueOutcome(s, id, version, freshLocator, secret, key, faults, env);
            && Clear(r.0, id)
            && (r.1 ==>
                  && id in s.rows && id in r.0.rows && id !in r.0.intents && Held(r.0, id).Some?
                  && (faults.applied ==> Held(r.0, id).value.secret == secret)
                  && (!faults.applied ==> s.rows[id].status != Unconfigured && Held(r.0, id) == Held(s, id)))
  {
    var prepared := PrepareSet(s, id, version, freshLocator, key);
    if prepared.Success? {
      PreparedSet(s, id, version, freshLocator, key);
      SetCallEffect(prepared.value, id, secret);
      PreparedAnswer(prepared.value, id, secret, faults, env);
      assert SetValueOutcome(s, id, version, freshLocator, secret, key, faults, env)
          == AnswerAfterPrepare(prepared.value, prepared.value.intents[id], secret, faults, env);
    }
  }

  // ---------- deleteValue ----------

  function DeleteAfterPrepare(s: State, intent: Intent, faults: Faults, env: Environment): (State, bool) {
    var call := DeleteCall(s.records, intent);
    var t := if call.Success? && faults.applied then s.(records := call.value) else s;
    var r := FinalizeDelete(t, intent);
    if call.Success? && faults.applied && faults.replied && faults.finalizes && r.Success? then (r.value, true)
    else DeleteAfterRecovery(t, intent, env)
  }

  // deleteValue has no step-up proof to offer its recovery.
  function DeleteAfterRecovery(s: State, intent: Intent, env: Environment): (State, bool) {
    var recovered := TryReconcile(s, intent, WithoutProof(env));
    (recovered.0, recovered.1 == Reconciled)
  }

  function DeleteValueOutcome(s: State, id: CredentialId, version: nat, archive: bool, faults: Faults, env: Environment)
    : (State, bool)
  {
    var prepared := PrepareDelete(s, id, version, archive);
    if prepared.Failure? || id !in prepared.value.intents then (s, false)
    else DeleteAfterPrepare(prepared.value, prepared.value.intents[id], faults, env)
  }

  // A settled delete intent leaves no record behind and the status it asked for.
  predicate Erased(s: State, intent: Intent) {
    var id := intent.credential;
    && id in s.rows && id !in s.intents && id !in s.approvals && intent.locator !in s.records
    && s.rows[id].vaultState == Idle && s.rows[id].locator.None? && s.rows[id].generation.None?
    && s.rows[id].status == if intent.operation == Archive then Archived else Unconfigured
  }

  lemma RecoveredDelete(s: State, id: CredentialId, env: Environment)
    requires Clear(s, id) && id in s.intents && !s.intents[id].SetsValue() && s.intents[id].credential == id
    ensures var r := TryReconcile(s, s.intents[id], env);
            Clear(r.0, id) && (r.1 == Reconciled ==> Erased(r.0, s.intents[id]))
  {
    RecoveringInv(s, id);
    RecoveryKeepsInv(s, id, env);
    var intent := s.intents[id];
    if env.vaultReachable {
      if intent.locator !in s.records {
        assert TryReconcile(s, intent, env) == RecoverAbsent(s, intent, env);
      } else {
        assert TryReconcile(s, intent, env) == RecoverDelete(s, intent, s.records[intent.locator].generation, env);
      }
    }
  }

  lemma FinalizedDelete(t: State, id: CredentialId)
    requires Clear(t, id) && id in t.intents && !t.intents[id].SetsValue() && t.intents[id].credential == id
    requires t.intents[id].locator !in t.records
    ensures FinalizeDelete(t, t.intents[id]).Success? ==>
              Clear(FinalizeDelete(t, t.intents[id]).value, id)
                && Erased(FinalizeDelete(t, t.intents[id]).value, t.intents[id])
  {
    if FinalizeDelete(t, t.intents[id]).Success? { FinalizedAnyway(t, id); }
  }

  lemma PreparedDelete(s: State, id: CredentialId, faults: Faults, env: Environment)
    requires Clear(s, id) && id in s.intents && !s.intents[id].SetsValue() && s.intents[id].credential == id
    ensures var r := DeleteAfterPrepare(s, s.intents[id], faults, env);
            Clear(r.0, id) && (r.1 ==> Erased(r.0, s.intents[id]))
  {
    var intent := s.intents[id];
    DeleteCallKeepsClearIff(s, id);
    var t := if DeleteCall(s.records, intent).Success? && faults.applied then AfterDeleteCall(s, intent) else s;
    assert t.intents == s.intents && Clear(t, id);
    if DeleteCall(s.records, intent).Success? && faults.applied && faults.replied && faults.finalizes
       && FinalizeDelete(t, intent).Success? {
      FinalizedDelete(t, id);
      assert DeleteAfterPrepare(s, intent, faults, env) == (FinalizeDelete(t, intent).value, true);
    } else {
      RecoveredDelete(t, id, WithoutProof(env));
      assert DeleteAfterPrepare(s, intent, faults, env) == DeleteAfterRecovery(t, intent, env);
    }
  }

  /** When deleteValue answers success the secret is gone from the vault and the credential is
      unconfigured or archived as asked, whichever replies were lost on the way. */
  lemma DeleteValueErases(s: State, id: CredentialId, version: nat, archive: bool, faults: Faults, env: Environment)
    requires Clear(s, id)
    ensures var r := DeleteValueOutcome(s, id, version, archive, faults, env);
            && Clear(r.0, id)
            && (r.1 ==> && id in s.rows && s.rows[id].locator.Some? && s.rows[id].locator.value in s.records
                        && s.rows[id].locator.value !in r.0.records
                        && id in r.0.rows && r.0.rows[id].vaultState == Idle && Held(r.0, id).None?
                        && r.0.rows[id].status == if archive then Archived else Unconfigured)
  {
    var prepared := PrepareDelete(s, id, version, archive);
    if prepared.Success? {
      DeleteIsPrepared(s, id, version, archive);
      PreparedDelete(prepared.value, id, faults, env);
      assert DeleteValueOutcome(s, id, version, archive, faults, env)
          == DeleteAfterPrepare(prepared.value, prepared.value.intents[id], faults, env);
    }
  }

  lemma DeleteIsPrepared(s: State, id: CredentialId, version: nat, archive: bool)
    requires Clear(s, id) && PrepareDelete(s, id, version, archive).Success?
    ensures var t := PrepareDelete(s, id, version, archive).value;
            && Clear(t, id) && id in t.intents && t.intents[id].credential == id && t.records == s.records
            && t.intents[id].operation == (if archive then Archive else Operation.DeleteValue)
            && id in s.rows && s.rows[id].locator == Some(t.intents[id].locator) && t.intents[id].locator in s.records
  {
    assert Consistent(s, id);
    BeginDeleteTouches(s, id, version, archive);
    ClearAfterStepIff(System(s, map[]), BeginDelete(id, version, archive), id);
  }

  const ALL_WELL: Environment := Environment(true, true, true, true, true, false, false)

  /** A replace the vault refused without effect is answered as a success although the old secret
      remains: the recovery rolls back to a configured credential. */
  lemma RefusedReplaceReportsSuccess(secret: Secret)
    requires secret != 5
    ensures var r := SetValueOutcome(AFTER_SET, 0, 3, 8, secret, None, Faults(false, false, true), ALL_WELL);
            r.1 && Held(r.0, 0) == Some(Record(0, 1, 5))
  {
    var s1 := PrepareSet(AFTER_SET, 0, 3, 8, None).value;
    assert s1.intents[0] == Intent(0, Replace, 7, Some(1), Some(2), Configured, Prepared, None, None);
    assert s1.rows[0] == Row(Configured, PendingReplace, Some(7), Some(1), 2, 4);
    var t := Rollback(s1, s1.intents[0]);
    assert t.Success? && t.value.rows[0] == Row(Configured, Idle, Some(7), Some(1), 2, 5);
    assert TryReconcile(s1, s1.intents[0], ALL_WELL) == (t.value, Reconciled);
  }

  // ---------- a replayed call resumes whatever intent is stored ----------

  // Without an intent the earlier call is complete, and the credential is shown as it stands.
  function SetReplayOutcome(s: State, id: CredentialId, secret: Secret, faults: Faults, env: Environment)
    : (State, bool)
  {
    if id in s.intents then AnswerAfterPrepare(s, s.intents[id], secret, faults, env) else (s, id in s.rows)
  }

  function DeleteReplayOutcome(s: State, id: CredentialId, faults: Faults, env: Environment): (State, bool) {
    if id in s.intents then DeleteAfterPrepare(s, s.intents[id], faults, env) else (s, id in s.rows)
  }

  lemma StrandedBreaksInv(s: State, id: CredentialId)
    requires Stranded(s, id)
    ensures !Clear(s, id)
  {
    assert id in s.rows ==> !Consistent(s, id);
  }

  // The record a pending delete is still to remove.
  predicate DeleteAwaitsRecord(s: State, id: CredentialId) {
    id in s.intents && !s.intents[id].SetsValue() && s.intents[id].locator in s.records
  }

  lemma OverwrittenIsStranded(s: State, id: CredentialId, secret: Secret)
    requires Clear(s, id) && DeleteAwaitsRecord(s, id)
    ensures var intent, t := s.intents[id], AfterSetCall(s, s.intents[id], secret);
            && SetCall(s.records, intent, secret).Success? && t.intents == s.intents && intent.locator in t.records
            && intent.target != Some(t.records[intent.locator].generation) && RunInv(t) && Stranded(t, id)
  {
    assert PendingConsistent(s, id);
    SetCallKeepsClearIff(s, id, secret);
    ClearIffNotStranded(AfterSetCall(s, s.intents[id], secret), id);
  }

  lemma SetOnDeleteStrands(s: State, id: CredentialId, secret: Secret, faults: Faults, env: Environment)
    requires Clear(s, id) && DeleteAwaitsRecord(s, id) && faults.applied
    ensures var r := SetReplayOutcome(s, id, secret, faults, env); !r.1 && RunInv(r.0) && Stranded(r.0, id)
  {
    var intent, t := s.intents[id], AfterSetCall(s, s.intents[id], secret);
    OverwrittenIsStranded(s, id, secret);
    if faults.replied {
      assert SetReplayOutcome(s, id, secret, faults, env) == (Marked(t, intent, GenerationMismatch, env).0, false);
      MarkKeepsInv(t, id, GenerationMismatch);
    } else {
      assert SetReplayOutcome(s, id, secret, faults, env) == AnswerAfterRecovery(t, intent, env);
      StrandedStaysStranded(t, id, env);
      RecoveryKeepsInv(t, id, env);
    }
  }

  lemma SetOnDeleteRecovers(s: State, id: CredentialId, secret: Secret, faults: Faults, env: Environment)
    requires Clear(s, id) && id in s.intents && !s.intents[id].SetsValue()
    requires s.intents[id].locator !in s.records || !faults.applied
    ensures var r := SetReplayOutcome(s, id, secret, faults, env); !r.1 && Clear(r.0, id)
  {
    assert Consistent(s, id);
    RecoveredDelete(s, id, env);
  }

  /** A replayed setValue ends with consistent stores, from its vault call through its recovery,
      unless it overwrites the record of a pending delete; then no recovery settles the credential. */
  lemma SetReplayKeepsInvIff(s: State, id: CredentialId, secret: Secret, faults: Faults, env: Environment)
    requires Clear(s, id)
    ensures var r := SetReplayOutcome(s, id, secret, faults, env);
            && RunInv(r.0) && (Clear(r.0, id) <==> !(DeleteAwaitsRecord(s, id) && faults.applied))
            && (!Clear(r.0, id) ==> !r.1 && Stranded(r.0, id))
  {
    if id in s.intents {
      if s.intents[id].SetsValue() {
        PreparedAnswer(s, id, secret, faults, env);
      } else if DeleteAwaitsRecord(s, id) && faults.applied {
        SetOnDeleteStrands(s, id, secret, faults, env);
        StrandedBreaksInv(SetReplayOutcome(s, id, secret, faults, env).0, id);
      } else {
        SetOnDeleteRecovers(s, id, secret, faults, env);
      }
    }
  }

  /** So a replay of setValue is safe whatever fails exactly when no delete with a record still to be
      removed is pending. */
  lemma SetReplayIsSafeIff(s: State, id: CredentialId, secret: Secret)
    requires Clear(s, id)
    ensures (forall faults, env :: Clear(SetReplayOutcome(s, id, secret, faults, env).0, id)) <==>
              !DeleteAwaitsRecord(s, id)
  {
    forall faults, env
      ensures Clear(SetReplayOutcome(s, id, secret, faults, env).0, id) <==>
                !(DeleteAwaitsRecord(s, id) && faults.applied)
    {
      SetReplayKeepsInvIff(s, id, secret, faults, env);
    }
    var worst := SetReplayOutcome(s, id, secret, Faults(true, true, true), ALL_WELL);
    SetReplayKeepsInvIff(s, id, secret, Faults(true, true, true), ALL_WELL);
  }

  // The credential is settled with the submitted secret.
  predicate Stored(s: State, id: CredentialId, secret: Secret) {
    id in s.rows && id !in s.intents && Held(s, id).Some? && Held(s, id).value.secret == secret
  }

  // No other value stands where the resumed intent, or the settled row, keeps its record.
  predicate NoOtherValue(s: State, id: CredentialId, secret: Secret) {
    if id in s.intents then
      var intent := s.intents[id];
      intent.SetsValue() && intent.locator in s.records ==> s.records[intent.locator].secret == secret
    else id in s.rows ==> Stored(s, id, secret)
  }

  lemma SetReplayMeans(s: State, id: CredentialId, secret: Secret, faults: Faults, env: Environment)
    requires Clear(s, id) && NoOtherValue(s, id, secret) && SetReplayOutcome(s, id, secret, faults, env).1
    ensures Stored(SetReplayOutcome(s, id, secret, faults, env).0, id, secret)
  {
    SetReplayKeepsInvIff(s, id, secret, faults, env);
    if id in s.intents {
      if s.intents[id].SetsValue() {
        PreparedAnswer(s, id, secret, faults, env);
        CalledSetKeepsInv(s, id, secret, faults.applied);
      } else {
        SetOnDeleteRecovers(s, id, secret, faults, env);
      }
    }
  }

  const VOUCHED: Environment := ALL_WELL.(proof := true, approvalValid := true)

  // A vault call without effect: the recovery answers success with whatever record is there.
  lemma OtherValueIsAnswered(s: State, id: CredentialId, secret: Secret)
    requires Clear(s, id) && id in s.intents && s.intents[id].SetsValue() && s.intents[id].locator in s.records
    ensures var r := SetReplayOutcome(s, id, secret, Faults(false, false, false), VOUCHED);
            r.1 && Held(r.0, id) == Some(s.records[s.intents[id].locator])
  {
    assert Consistent(s, id);
    RecoverySettles(s, id, VOUCHED);
    PreparedAnswer(s, id, secret, Faults(false, false, false), VOUCHED);
  }

  /** An answer of success to a replayed setValue is true, whatever fails, exactly when no other value
      stands where the resumed intent keeps its record; without an intent, exactly when the credential
      holds the value already. */
  lemma SetReplayIsTruthfulIff(s: State, id: CredentialId, secret: Secret)
    requires Clear(s, id)
    ensures (forall faults, env :: SetReplayOutcome(s, id, secret, faults, env).1 ==>
               Stored(SetReplayOutcome(s, id, secret, faults, env).0, id, secret))
            <==> NoOtherValue(s, id, secret)
  {
    if NoOtherValue(s, id, secret) {
      forall faults, env | SetReplayOutcome(s, id, secret, faults, env).1
        ensures Stored(SetReplayOutcome(s, id, secret, faults, env).0, id, secret)
      {
        SetReplayMeans(s, id, secret, faults, env);
      }
    } else {
      if id in s.intents { OtherValueIsAnswered(s, id, secret); }
      var r := SetReplayOutcome(s, id, secret, Faults(false, false, false), VOUCHED);
      assert r.1 && !Stored(r.0, id, secret);
    }
  }

  /** A first setValue answers success truthfully, whatever fails, exactly when the credential was
      unconfigured or held the submitted secret before. */
  lemma SetIsTruthfulIff(s: State, id: CredentialId, version: nat, freshLocator: Locator, secret: Secret,
                         key: Option<nat>)
    requires Clear(s, id) && freshLocator !in s.claims && PrepareSet(s, id, version, freshLocator, key).Success?
    ensures (forall faults, env :: SetValueOutcome(s, id, version, freshLocator, secret, key, faults, env).1 ==>
               Stored(SetValueOutcome(s, id, version, freshLocator, secret, key, faults, env).0, id, secret))
            <==> s.rows[id].status == Unconfigured || Stored(s, id, secret)
  {
    PreparedSet(s, id, version, freshLocator, key);
    var s1 := PrepareSet(s, id, version, freshLocator, key).value;
    SetReplayIsTruthfulIff(s1, id, secret);
    forall faults, env
      ensures SetValueOutcome(s, id, version, freshLocator, secret, key, faults, env)
              == SetReplayOutcome(s1, id, secret, faults, env)
    {
    }
    if forall faults, env :: SetValueOutcome(s, id, version, freshLocator, secret, key, faults, env).1 ==>
         Stored(SetValueOutcome(s, id, version, freshLocator, secret, key, faults, env).0, id, secret) {
      forall faults, env | SetReplayOutcome(s1, id, secret, faults, env).1
        ensures Stored(SetReplayOutcome(s1, id, secret, faults, env).0, id, secret)
      {
        assert SetValueOutcome(s, id, version, freshLocator, secret, key, faults, env).1;
      }
    }
  }

  // ---------- a replayed delete ----------

  // The record a pending replace still needs: the vault's delete call removes it.
  predicate ReplaceAwaitsRecord(s: State, id: CredentialId) {
    && id in s.intents && s.intents[id].operation == Replace && s.intents[id].expected.Some?
    && Holds(s, id, s.intents[id].locator, s.intents[id].expected.value)
  }

  // The finalizing transaction admits a row marked for recovery, whatever the intent.
  predicate FinalizesAnyway(s: State, id: CredentialId, faults: Faults) {
    id in s.rows && s.rows[id].vaultState == VaultState.Reconcile && faults.replied && faults.finalizes
  }

  // The credential is settled, names no record, and the vault holds none for it.
  ghost predicate Emptied(s: State, id: CredentialId) {
    && id in s.rows && id !in s.intents && id !in s.approvals
    && s.rows[id].vaultState == Idle && s.rows[id].locator.None? && s.rows[id].generation.None?
    && forall l | l in s.records :: s.records[l].owner != id
  }

  lemma EmptiedIff(s: State, id: CredentialId)
    requires Clear(s, id) && id in s.rows && id !in s.intents
    ensures Emptied(s, id) <==> s.rows[id].locator.None?
    ensures s.rows[id].locator.Some? ==> Held(s, id).Some?
  {
    assert Consistent(s, id);
    forall l | l in s.records ensures s.records[l].owner == id ==> s.rows[id].locator == Some(l) { assert Owned(s, l); }
  }

  lemma DeleteOnReplaceStrands(s: State, id: CredentialId, faults: Faults, env: Environment)
    requires Clear(s, id) && ReplaceAwaitsRecord(s, id) && faults.applied && !FinalizesAnyway(s, id, faults)
    ensures var r := DeleteReplayOutcome(s, id, faults, env); !r.1 && RunInv(r.0) && Stranded(r.0, id)
  {
    assert Consistent(s, id);
    DeleteCallKeepsClearIff(s, id);
    var t := AfterDeleteCall(s, s.intents[id]);
    ClearIffNotStranded(t, id);
    StrandedStaysStranded(t, id, WithoutProof(env));
    RecoveryKeepsInv(t, id, WithoutProof(env));
  }

  // The finalizing transaction of a replayed delete, whatever intent it resumed.
  lemma FinalizedAnyway(t: State, id: CredentialId)
    requires RunInv(t) && id in t.intents && t.intents[id].locator !in t.records
             && FinalizeDelete(t, t.intents[id]).Success?
    ensures Clear(FinalizeDelete(t, t.intents[id]).value, id)
  {
    TakenInv(t, id, DeleteCaller, RecordGone);
    StepKeepsInv(Taken(t, id, DeleteCaller, RecordGone), Finalize(id, false, false));
    assert Apply(Taken(t, id, DeleteCaller, RecordGone), Finalize(id, false, false)).state
      == FinalizeDelete(t, t.intents[id]).value;
  }

  lemma DeleteOnReplaceEmpties(s: State, id: CredentialId, faults: Faults, env: Environment)
    requires Clear(s, id) && ReplaceAwaitsRecord(s, id) && faults.applied && FinalizesAnyway(s, id, faults)
    ensures var r := DeleteReplayOutcome(s, id, faults, env); r.1 && Clear(r.0, id) && Emptied(r.0, id)
  {
    assert Consistent(s, id);
    var intent := s.intents[id];
    var r := DeleteReplayOutcome(s, id, faults, env);
    assert r == (FinalizeDelete(AfterDeleteCall(s, intent), intent).value, true);
    DeleteCallKeepsClearIff(s, id);
    FinalizedAnyway(AfterDeleteCall(s, intent), id);
    EmptiedIff(r.0, id);
  }

  // The vault refuses the call or loses it without effect, and the recovery of the set intent answers.
  lemma DeleteOnSetRecovers(s: State, id: CredentialId, faults: Faults, env: Environment)
    requires Clear(s, id) && id in s.intents && s.intents[id].SetsValue()
    requires !(ReplaceAwaitsRecord(s, id) && faults.applied)
    ensures var r, intent := DeleteReplayOutcome(s, id, faults, env), s.intents[id];
            && r == (TryReconcile(s, intent, WithoutProof(env)).0,
                     TryReconcile(s, intent, WithoutProof(env)).1 == Reconciled)
            && Clear(r.0, id)
            && (r.1 ==> && id in r.0.rows && id !in r.0.intents
                        && (intent.operation == Create && intent.locator !in s.records <==> Emptied(r.0, id))
                        && !AwaitsApproval(s, intent))
  {
    assert Consistent(s, id);
    var r, intent := DeleteReplayOutcome(s, id, faults, env), s.intents[id];
    RecoveryKeepsInv(s, id, WithoutProof(env));
    if r.1 {
      RecoveredRow(s, id, WithoutProof(env));
      EmptiedIff(r.0, id);
    }
  }

  lemma RecoveredRow(s: State, id: CredentialId, env: Environment)
    requires id in s.rows && id in s.intents && Consistent(s, id) && s.intents[id].SetsValue() && !env.proof
    requires TryReconcile(s, s.intents[id], env).1 == Reconciled
    ensures var t, intent := TryReconcile(s, s.intents[id], env).0, s.intents[id];
            && id in t.rows && id !in t.intents
            && (t.rows[id].locator.None? <==> intent.operation == Create && intent.locator !in s.records)
            && !AwaitsApproval(s, intent)
  {
    var intent := s.intents[id];
    if intent.locator !in s.records {
      assert TryReconcile(s, intent, env) == RecoverAbsent(s, intent, env);
    } else {
      assert TryReconcile(s, intent, env) == RecoverSet(s, intent, s.records[intent.locator].generation, env);
    }
  }

  lemma DeleteOnDeleteEmpties(s: State, id: CredentialId, faults: Faults, env: Environment)
    requires Clear(s, id) && id in s.intents && !s.intents[id].SetsValue()
    ensures var r := DeleteReplayOutcome(s, id, faults, env); Clear(r.0, id) && (r.1 ==> Emptied(r.0, id))
  {
    assert Consistent(s, id);
    PreparedDelete(s, id, faults, env);
    var r := DeleteReplayOutcome(s, id, faults, env);
    if r.1 { EmptiedIff(r.0, id); }
  }

  /** A replayed deleteValue ends with consistent stores, from its vault call through its recovery,
      unless it removes the record of a pending replace that is not yet marked for recovery, or is
      marked but whose reply or transaction then fails; then no recovery settles the credential. */
  lemma DeleteReplayKeepsInvIff(s: State, id: CredentialId, faults: Faults, env: Environment)
    requires Clear(s, id)
    ensures var r := DeleteReplayOutcome(s, id, faults, env);
            && RunInv(r.0) && (Clear(r.0, id) <==>
                                 !(ReplaceAwaitsRecord(s, id) && faults.applied && !FinalizesAnyway(s, id, faults)))
            && (!Clear(r.0, id) ==> !r.1 && Stranded(r.0, id))
  {
    if id in s.intents {
      if !s.intents[id].SetsValue() {
        DeleteOnDeleteEmpties(s, id, faults, env);
      } else if !(ReplaceAwaitsRecord(s, id) && faults.applied) {
        DeleteOnSetRecovers(s, id, faults, env);
      } else if FinalizesAnyway(s, id, faults) {
        DeleteOnReplaceEmpties(s, id, faults, env);
      } else {
        DeleteOnReplaceStrands(s, id, faults, env);
        StrandedBreaksInv(DeleteReplayOutcome(s, id, faults, env).0, id);
      }
    }
  }

  /** So a replay of deleteValue is safe whatever fails exactly when no replace with its record still
      at the prior generation is pending; if nothing fails, also when that row is marked for recovery. */
  lemma DeleteReplayIsSafeIff(s: State, id: CredentialId)
    requires Clear(s, id)
    ensures (forall faults, env :: Clear(DeleteReplayOutcome(s, id, faults, env).0, id)) <==>
              !ReplaceAwaitsRecord(s, id)
    ensures forall env :: Clear(DeleteReplayOutcome(s, id, Faults(true, true, true), env).0, id) <==>
              !(ReplaceAwaitsRecord(s, id) && s.rows[id].vaultState == PendingReplace)
  {
    forall faults, env
      ensures Clear(DeleteReplayOutcome(s, id, faults, env).0, id) <==>
                !(ReplaceAwaitsRecord(s, id) && faults.applied && !FinalizesAnyway(s, id, faults))
    {
      DeleteReplayKeepsInvIff(s, id, faults, env);
    }
    if ReplaceAwaitsRecord(s, id) {
      assert Consistent(s, id);
      assert !Clear(DeleteReplayOutcome(s, id, Faults(true, false, false), ALL_WELL).0, id);
    }
  }

  // A delete is pending, or a create that has left no record and so can only be rolled back, or a
  // stored value whose approval nobody proves here; without an intent, the credential is empty already.
  predicate OnlyEmpties(s: State, id: CredentialId) {
    if id in s.intents then
      var intent := s.intents[id];
      intent.SetsValue() ==> (intent.operation == Create && intent.locator !in s.records) || AwaitsApproval(s, intent)
    else id in s.rows ==> s.rows[id].locator.None?
  }

  lemma DeleteReplayMeans(s: State, id: CredentialId, faults: Faults, env: Environment)
    requires Clear(s, id) && OnlyEmpties(s, id) && DeleteReplayOutcome(s, id, faults, env).1
    ensures Emptied(DeleteReplayOutcome(s, id, faults, env).0, id)
  {
    if id !in s.intents {
      EmptiedIff(s, id);
    } else if s.intents[id].SetsValue() {
      DeleteOnSetRecovers(s, id, faults, env);
    } else {
      DeleteOnDeleteEmpties(s, id, faults, env);
    }
  }

  lemma ValueSurvivesDelete(s: State, id: CredentialId)
    requires Clear(s, id) && !OnlyEmpties(s, id)
    ensures var r := DeleteReplayOutcome(s, id, Faults(false, false, false), ALL_WELL);
            r.1 && Held(r.0, id).Some? && !Emptied(r.0, id)
  {
    if id !in s.intents {
      EmptiedIff(s, id);
    } else {
      assert Consistent(s, id);
      RecoverySettles(s, id, WithoutProof(ALL_WELL));
      DeleteOnSetRecovers(s, id, Faults(false, false, false), ALL_WELL);
      EmptiedIff(DeleteReplayOutcome(s, id, Faults(false, false, false), ALL_WELL).0, id);
    }
  }

  /** An answer of success to a replayed deleteValue means that the value is gone, whatever fails,
      exactly when what it resumes can only end empty: an intent that sets a value only if it is a
      create that left no record, or its stored value waits for an approval and so no success comes. */
  lemma DeleteReplayIsTruthfulIff(s: State, id: CredentialId)
    requires Clear(s, id)
    ensures (forall faults, env :: DeleteReplayOutcome(s, id, faults, env).1 ==>
               Emptied(DeleteReplayOutcome(s, id, faults, env).0, id))
            <==> OnlyEmpties(s, id)
  {
    if OnlyEmpties(s, id) {
      forall faults, env | DeleteReplayOutcome(s, id, faults, env).1
        ensures Emptied(DeleteReplayOutcome(s, id, faults, env).0, id)
      {
        DeleteReplayMeans(s, id, faults, env);
      }
    } else {
      ValueSurvivesDelete(s, id);
      assert DeleteReplayOutcome(s, id, Faults(false, false, false), ALL_WELL).1;
    }
  }

  // ---------- enable ----------

  // What enable reads first, what it asks the vault, and what it commits: between these stretches
  // any other step may run.
  function EnableCheck(s: State, id: CredentialId, version: nat): Result<Row, DbError> {
    if id !in s.rows then Failure(NotFound) else
    var row := s.rows[id];
    if row.version != version then Failure(Stale)
    else if row.status != Disabled || row.vaultState != Idle || row.locator.None? || row.generation.None? then
      Failure(Conflict)
    else Success(row)
  }

  function EnableConfirm(records: map<Locator, Record>, id: CredentialId, row: Row, reachable: bool)
    : Result<nat, DbError>
  {
    if !reachable || row.locator.None? then Failure(Unavailable) else
    match VaultMetadata(records, row.locator.value, id)
    case Failure(_) => Failure(Unavailable)
    case Success(g) => if row.generation == Some(g) then Success(g) else Failure(Conflict)
  }

  function EnableOutcome(s: State, id: CredentialId, version: nat, reachable: bool): Result<State, DbError> {
    match EnableCheck(s, id, version)
    case Failure(e) => Failure(e)
    case Success(row) =>
      match EnableConfirm(s.records, id, row, reachable)
      case Failure(e) => Failure(e)
      case Success(g) => Enable(s, id, version, g)
  }

  /** With nothing in between, enable succeeds exactly for a settled disabled credential at the given
      version while the vault is reachable; then the credential is configured with the record it had. */
  lemma EnableSucceedsIff(s: State, id: CredentialId, version: nat, reachable: bool)
    requires Clear(s, id)
    ensures EnableOutcome(s, id, version, reachable).Success? <==>
              && reachable && id in s.rows && s.rows[id].version == version
              && s.rows[id].status == Disabled && s.rows[id].vaultState == Idle
    ensures EnableOutcome(s, id, version, reachable).Success? ==>
              var t := EnableOutcome(s, id, version, reachable).value;
              Clear(t, id) && t.rows[id].status == Configured && Held(t, id).Some? && Held(t, id) == Held(s, id)
  {
    if id in s.rows {
      assert Consistent(s, id);
      if EnableOutcome(s, id, version, reachable).Success? {
        ClearAfterStepIff(System(s, map[]), EnableCredential(id, version, s.rows[id].generation.value), id);
      }
    }
  }

  // A row is not given back once deleted, and each change of it raises its version.
  predicate RowMovesOn(s: State, t: State, id: CredentialId) {
    && id in s.everAdded && id in t.everAdded
    && (id in t.rows ==> id in s.rows && (t.rows[id] == s.rows[id] || t.rows[id].version > s.rows[id].version))
  }

  lemma VaultStepKeepsRow(sys: System, step: Step)
    requires (step.CallVault? || step.AskMetadata?) && step.id in sys.state.everAdded
    ensures RowMovesOn(sys.state, Apply(sys, step).state, step.id)
  {
  }

  lemma FinalizeMovesRow(sys: System, step: Step)
    requires SystemInv(sys) && step.Finalize? && step.id in sys.state.everAdded
    ensures RowMovesOn(sys.state, Apply(sys, step).state, step.id)
  {
    if step.id in sys.executors {
      var e := sys.executors[step.id];
      assert ExecutorInv(sys.state, step.id, e) && Tracked(sys.state, step.id);
    }
  }

  lemma EndMovesRow(sys: System, step: Step)
    requires SystemInv(sys) && (step.Undo? || step.Mark?) && step.id in sys.state.everAdded
    ensures RowMovesOn(sys.state, Apply(sys, step).state, step.id)
  {
    if step.id in sys.executors {
      assert ExecutorInv(sys.state, step.id, sys.executors[step.id]) && Tracked(sys.state, step.id);
    }
  }

  lemma ExecutorMovesRow(sys: System, step: Step)
    requires SystemInv(sys) && IsExecutorStep(step) && step.id in sys.state.everAdded
    ensures RowMovesOn(sys.state, Apply(sys, step).state, step.id)
  {
    if step.Finalize? {
      FinalizeMovesRow(sys, step);
    } else if step.Undo? || step.Mark? {
      EndMovesRow(sys, step);
    } else {
      VaultStepKeepsRow(sys, step);
    }
  }

  lemma ExistenceMovesRow(sys: System, step: Step)
    requires (step.AddCredential? || step.DeleteRow?) && step.id in sys.state.everAdded
    ensures RowMovesOn(sys.state, Apply(sys, step).state, step.id)
  {
  }

  lemma EditMovesRow(sys: System, step: Step)
    requires (step.EditProfile? || step.EditAssignments? || step.DisableCredential?) && step.id in sys.state.everAdded
    ensures RowMovesOn(sys.state, Apply(sys, step).state, step.id)
  {
  }

  lemma LifecycleMovesRow(sys: System, step: Step)
    requires (step.EnableCredential? || step.ArchiveEmpty?) && step.id in sys.state.everAdded
    ensures RowMovesOn(sys.state, Apply(sys, step).state, step.id)
  {
  }

  lemma QuietStepMovesRow(sys: System, step: Step)
    requires SystemInv(sys) && !IsExecutorStep(step) && !IsManagement(step) && step.id in sys.state.everAdded
    ensures RowMovesOn(sys.state, Apply(sys, step).state, step.id)
  {
  }

  lemma StepMovesRow(sys: System, step: Step, id: CredentialId)
    requires SystemInv(sys) && id in sys.state.everAdded
    ensures RowMovesOn(sys.state, Apply(sys, step).state, id)
  {
    if step.id != id {
      OtherStep(sys, step, id);
    } else if IsExecutorStep(step) {
      ExecutorMovesRow(sys, step);
    } else if step.AddCredential? || step.DeleteRow? {
      ExistenceMovesRow(sys, step);
    } else if step.EnableCredential? || step.ArchiveEmpty? {
      LifecycleMovesRow(sys, step);
    } else if IsManagement(step) {
      EditMovesRow(sys, step);
    } else {
      QuietStepMovesRow(sys, step);
    }
  }

  lemma RunMovesRow(sys: System, steps: seq<Step>, k: nat, id: CredentialId)
    requires SystemInv(sys) && k < |steps| && id in States(sys, steps)[k].everAdded
    ensures RowMovesOn(States(sys, steps)[k], States(sys, steps)[k + 1], id)
  {
    RunStep(sys, steps, k);
    StepMovesRow(Run(sys, steps[..k]), steps[k], id);
  }

  lemma {:induction false} RowMovesOnAlong(states: seq<State>, i: nat, j: nat, id: CredentialId)
    requires i <= j < |states| && id in states[i].everAdded
    requires forall k | i <= k < j && id in states[k].everAdded :: RowMovesOn(states[k], states[k + 1], id)
    ensures RowMovesOn(states[i], states[j], id)
    decreases j
  {
    if j > i { RowMovesOnAlong(states, i, j - 1, id); }
  }

  lemma RowMovesOnOverRun(sys: System, steps: seq<Step>, i: nat, j: nat, id: CredentialId)
    requires SystemInv(sys) && i <= j <= |steps| && id in States(sys, steps)[i].everAdded
    ensures RowMovesOn(States(sys, steps)[i], States(sys, steps)[j], id)
  {
    var states := States(sys, steps);
    forall k | i <= k < j && id in states[k].everAdded ensures RowMovesOn(states[k], states[k + 1], id) {
      RunMovesRow(sys, steps, k, id);
    }
    RowMovesOnAlong(states, i, j, id);
  }

  // The three stretches of enable at three moments, and what a commit leaves.
  predicate EnablesAt(read: State, asked: State, commits: State, id: CredentialId, version: nat) {
    EnableCheck(read, id, version).Success? &&
    var row := EnableCheck(read, id, version).value;
    var answer := EnableConfirm(asked.records, id, row, true);
    answer.Success? && Enable(commits, id, version, answer.value).Success?
  }

  predicate VouchedFor(read: State, asked: State, done: State, id: CredentialId) {
    && id in read.rows && id in done.rows
    && var row := read.rows[id];
       && row.locator.Some? && row.generation.Some?
       && done.rows[id] == row.(status := Configured, authorizationGeneration := row.authorizationGeneration + 1,
                                version := row.version + 1)
       && var l := row.locator.value;
          && l in read.records && l in asked.records && l in done.records
          && read.records[l] == asked.records[l] == done.records[l]
          && done.records[l].owner == id && done.records[l].generation == row.generation.value
  }

  lemma SameRecordThroughout(read: State, asked: State, commits: State, id: CredentialId, version: nat)
    requires RunInv(read) && RunInv(commits) && EnablesAt(read, asked, commits, id, version)
    requires RowMovesOn(read, commits, id)
    requires Tracked(read, id) && read.rows[id].locator.value in read.records
    requires RecordMovesOn(read, asked, read.rows[id].locator.value)
    requires RecordMovesOn(read, commits, read.rows[id].locator.value)
    ensures VouchedFor(read, asked, Enable(commits, id, version, read.rows[id].generation.value).value, id)
  {
    assert commits.rows[id] == read.rows[id];
    assert Tracked(commits, id);
  }

  /** Over every run, whatever steps come between the three stretches of enable: if it commits, the row it
      configures is the one it read first, and the record it vouches for is the same one, secret included,
      when the row was read, when the vault answered and when the transaction commits. */
  lemma EnableVouchesForItsRecord(steps: seq<Step>, i: nat, j: nat, k: nat, id: CredentialId, version: nat)
    requires i <= j <= k <= |steps|
    requires EnablesAt(States(START, steps)[i], States(START, steps)[j], States(START, steps)[k], id, version)
    ensures var read, asked, commits := States(START, steps)[i], States(START, steps)[j], States(START, steps)[k];
            && id in read.rows && read.rows[id].generation.Some?
            && var done := Enable(commits, id, version, read.rows[id].generation.value);
               done.Success? && VouchedFor(read, asked, done.value, id)
  {
    var read := States(START, steps)[i];
    StatesAreReached(START, steps, i);
    StatesAreReached(START, steps, k);
    assert Tracked(read, id);
    RowMovesOnOverRun(START, steps, i, k, id);
    RecordMovesOnOverRun(START, steps, i, j, read.rows[id].locator.value);
    RecordMovesOnOverRun(START, steps, i, k, read.rows[id].locator.value);
    SameRecordThroughout(read, States(START, steps)[j], States(START, steps)[k], id, version);
  }
}
