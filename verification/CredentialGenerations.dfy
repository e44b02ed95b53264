/** What generations identify, over whole runs: an authorization generation stands for one secret
    value, a vault generation of a locator stands for one secret value, and every authorization
    generation ever reached was announced by an invalidation event. */
module CredentialGenerations {
  import opened CredentialState
  import opened CredentialProtocol
  import opened CredentialSafety

  // The states a run passes through.
  function States(sys: System, steps: seq<Step>): (states: seq<State>)
    ensures |states| == |steps| + 1
  {
    seq(|steps| + 1, k requires 0 <= k <= |steps| => Run(sys, steps[..k]).state)
  }

  lemma RunStep(sys: System, steps: seq<Step>, k: nat)
    requires SystemInv(sys) && k < |steps|
    ensures SystemInv(Run(sys, steps[..k])) && States(sys, steps)[k] == Run(sys, steps[..k]).state
    ensures States(sys, steps)[k + 1] == Apply(Run(sys, steps[..k]), steps[k]).state
  {
    EveryRunKeepsInv(sys, steps[..k]);
    assert steps[..k + 1][..k] == steps[..k];
  }

  lemma StatesAreReached(sys: System, steps: seq<Step>, k: nat)
    requires SystemInv(sys) && k <= |steps|
    ensures States(sys, steps)[k] == Run(sys, steps[..k]).state && RunInv(States(sys, steps)[k])
  {
    EveryRunKeepsInv(sys, steps[..k]);
  }

  predicate IdleConfigured(s: State, id: CredentialId) {
    id in s.rows && s.rows[id].status == Configured && s.rows[id].vaultState == Idle
  }

  // `t` comes later than `s`: credential `id` has moved to a higher authorization generation, or is
  // idle with the same value under the same generation, or is gone for good.
  predicate LaterView(s: State, t: State, id: CredentialId)
    requires id in s.rows
  {
    && id in t.everAdded
    && (id in t.rows ==>
          || s.rows[id].authorizationGeneration < t.rows[id].authorizationGeneration
          || (&& t.rows[id].authorizationGeneration == s.rows[id].authorizationGeneration
              && t.rows[id] == s.rows[id].(version := t.rows[id].version)
              && (s.rows[id].locator.Some? ==>
                    && s.rows[id].locator.value in s.records && s.rows[id].locator.value in t.records
                    && t.records[s.rows[id].locator.value] == s.records[s.rows[id].locator.value])))
  }

  predicate IsExecutorStep(step: Step) {
    step.CallVault? || step.AskMetadata? || step.Finalize? || step.Undo? || step.Mark?
  }

  // While a credential is idle nobody executes for it.
  lemma IdleHasNoExecutor(sys: System, step: Step)
    requires SystemInv(sys) && IsExecutorStep(step)
    requires step.id in sys.state.rows && sys.state.rows[step.id].vaultState == Idle
    ensures Apply(sys, step) == sys
  {
    assert Tracked(sys.state, step.id);
    assert step.id !in sys.state.intents;
    assert step.id !in sys.executors;
  }

  // Preparing a change or changing the lifecycle leaves the vault alone and, except for a profile
  // edit, raises the authorization generation.
  lemma PreparationRaisesGeneration(sys: System, step: Step)
    requires !IsExecutorStep(step) && step.id in sys.state.rows && step.id in Apply(sys, step).state.rows
    requires step.id in sys.state.everAdded
    ensures var s, t := sys.state, Apply(sys, step).state;
            && t.records == s.records
            && (|| s.rows[step.id].authorizationGeneration < t.rows[step.id].authorizationGeneration
                || t.rows[step.id] == s.rows[step.id].(version := t.rows[step.id].version))
  {
  }

  lemma IdleStepMovesForward(sys: System, step: Step)
    requires SystemInv(sys) && !IsExecutorStep(step)
    requires step.id in sys.state.rows && sys.state.rows[step.id].vaultState == Idle
    ensures step.id in Apply(sys, step).state.rows ==> LaterView(sys.state, Apply(sys, step).state, step.id)
  {
    assert Tracked(sys.state, step.id) && step.id in sys.state.everAdded;
    if step.id in Apply(sys, step).state.rows {
      PreparationRaisesGeneration(sys, step);
      StepAnnounces(sys, step);
    }
  }

  // One step never lowers an authorization generation, and while it stays the same an idle
  // credential keeps its status, locator, generation and stored record.
  lemma StepMovesForward(sys: System, step: Step, id: CredentialId)
    requires SystemInv(sys) && id in sys.state.everAdded
    ensures MovedForward(sys.state, Apply(sys, step).state, id)
  {
    StepKeepsRow(sys, step, id);
    if id in sys.state.rows && sys.state.rows[id].vaultState == Idle {
      if step.id != id { OtherStep(sys, step, id); } else { OwnIdleStepMovesForward(sys, step); }
    }
  }

  // A credential once added is not added again, and its authorization generation does not fall.
  lemma StepKeepsRow(sys: System, step: Step, id: CredentialId)
    requires SystemInv(sys) && id in sys.state.everAdded
    ensures var s, t := sys.state, Apply(sys, step).state;
            && id in t.everAdded
            && (id in t.rows ==>
                  id in s.rows && s.rows[id].authorizationGeneration <= t.rows[id].authorizationGeneration)
  {
    if step.id != id {
      OtherStep(sys, step, id);
    } else {
      AddedOnce(sys, step);
      StepAnnounces(sys, step);
    }
  }

  lemma AddedOnce(sys: System, step: Step)
    requires step.id in sys.state.everAdded
    ensures step.id in Apply(sys, step).state.everAdded
    ensures step.id in Apply(sys, step).state.rows ==> step.id in sys.state.rows
  {
  }

  lemma OwnIdleStepMovesForward(sys: System, step: Step)
    requires SystemInv(sys) && step.id in sys.state.rows && sys.state.rows[step.id].vaultState == Idle
    ensures step.id in Apply(sys, step).state.rows ==> LaterView(sys.state, Apply(sys, step).state, step.id)
  {
    if IsExecutorStep(step) {
      IdleHasNoExecutor(sys, step);
      assert Tracked(sys.state, step.id);
    } else {
      IdleStepMovesForward(sys, step);
    }
  }

  // A step of one credential does not touch the row or the record of another.
  lemma OtherStep(sys: System, step: Step, id: CredentialId)
    requires SystemInv(sys) && id != step.id
    ensures var s, t := sys.state, Apply(sys, step).state;
            && (id in t.rows <==> id in s.rows) && (id in s.rows ==> t.rows[id] == s.rows[id])
            && (id in t.intents <==> id in s.intents) && (id in s.intents ==> t.intents[id] == s.intents[id])
            && (id in s.everAdded ==> id in t.everAdded)
            && (forall l | l in s.claims && s.claims[l] == id ::
                  && (l in t.records <==> l in s.records) && (l in s.records ==> t.records[l] == s.records[l])
                  && l in t.claims && t.claims[l] == id)
            && (id in s.rows && s.rows[id].vaultState == Idle ==> LaterView(s, t, id))
  {
    StepTouchesOnly(sys, step);
    OtherView(sys.state, Apply(sys, step).state, step.id, id);
  }

  lemma OtherView(s: State, t: State, own: CredentialId, id: CredentialId)
    requires RunInv(s) && TouchesOnly(s, t, own) && id != own
    ensures && (id in t.rows <==> id in s.rows) && (id in s.rows ==> t.rows[id] == s.rows[id])
            && (id in t.intents <==> id in s.intents) && (id in s.intents ==> t.intents[id] == s.intents[id])
            && (id in s.everAdded ==> id in t.everAdded)
            && (forall l | l in s.claims && s.claims[l] == id ::
                  && (l in t.records <==> l in s.records) && (l in s.records ==> t.records[l] == s.records[l])
                  && l in t.claims && t.claims[l] == id)
            && (id in s.rows && s.rows[id].vaultState == Idle ==> LaterView(s, t, id))
  {
    assert id in s.rows <==> id in s.rows.Keys - {own};
    assert id in t.rows <==> id in t.rows.Keys - {own};
    assert id in s.intents <==> id in s.intents - {own};
    assert id in t.intents <==> id in t.intents - {own};
    if id in s.intents { assert t.intents[id] == (t.intents - {own})[id] == (s.intents - {own})[id] == s.intents[id]; }
    if id in s.rows { assert Tracked(s, id) && id in s.everAdded; }
  }

  // What one step gives: see StepMovesForward.
  predicate MovedForward(s: State, t: State, id: CredentialId) {
    && id in t.everAdded
    && (id in t.rows ==> id in s.rows && s.rows[id].authorizationGeneration <= t.rows[id].authorizationGeneration)
    && (id in t.rows && s.rows[id].vaultState == Idle ==> LaterView(s, t, id))
  }

  lemma LaterViewExtends(s: State, t: State, u: State, id: CredentialId)
    requires id in s.rows && s.rows[id].vaultState == Idle && LaterView(s, t, id) && MovedForward(t, u, id)
    ensures LaterView(s, u, id)
  {
  }

  lemma RunMovesForward(sys: System, steps: seq<Step>, k: nat, id: CredentialId)
    requires SystemInv(sys) && k < |steps| && id in States(sys, steps)[k].everAdded
    ensures MovedForward(States(sys, steps)[k], States(sys, steps)[k + 1], id)
  {
    RunStep(sys, steps, k);
    StepMovesForward(Run(sys, steps[..k]), steps[k], id);
  }

  lemma {:induction false} LaterViewAlong(states: seq<State>, i: nat, j: nat, id: CredentialId)
    requires i <= j < |states| && id in states[i].everAdded
    requires forall k | i <= k < j && id in states[k].everAdded :: MovedForward(states[k], states[k + 1], id)
    requires id in states[i].rows && states[i].rows[id].vaultState == Idle && LaterView(states[i], states[i], id)
    ensures LaterView(states[i], states[j], id)
    decreases j
  {
    if j > i {
      LaterViewAlong(states, i, j - 1, id);
      LaterViewExtends(states[i], states[j - 1], states[j], id);
    }
  }

  lemma LaterViewAtOnce(s: State, id: CredentialId)
    requires RunInv(s) && IdleConfigured(s, id)
    ensures LaterView(s, s, id) && s.rows[id].locator.Some? && s.rows[id].locator.value in s.records
  {
    assert Tracked(s, id);
  }

  lemma LaterViewOverRun(sys: System, steps: seq<Step>, i: nat, j: nat, id: CredentialId)
    requires SystemInv(sys) && i <= j <= |steps| && IdleConfigured(States(sys, steps)[i], id)
    ensures LaterView(States(sys, steps)[i], States(sys, steps)[j], id)
  {
    var states := States(sys, steps);
    StatesAreReached(sys, steps, i);
    LaterViewAtOnce(states[i], id);
    forall k | i <= k < j && id in states[k].everAdded ensures MovedForward(states[k], states[k + 1], id) {
      RunMovesForward(sys, steps, k, id);
    }
    LaterViewAlong(states, i, j, id);
  }

  /** Any two moments of a run at which a credential is idle and configured under the same
      authorization generation show the same locator, the same vault generation and the same
      secret, however creates, replaces, deletes, rollbacks, disables and selector changes mix. */
  lemma OneValuePerAuthorizationGeneration(steps: seq<Step>, i: nat, j: nat, id: CredentialId)
    requires i <= j <= |steps|
    requires IdleConfigured(States(START, steps)[i], id) && IdleConfigured(States(START, steps)[j], id)
    requires States(START, steps)[i].rows[id].authorizationGeneration
          == States(START, steps)[j].rows[id].authorizationGeneration
    ensures var s, t := States(START, steps)[i], States(START, steps)[j];
            && s.rows[id].locator == t.rows[id].locator && s.rows[id].generation == t.rows[id].generation
            && s.rows[id].locator.Some?
            && s.rows[id].locator.value in s.records && s.rows[id].locator.value in t.records
            && s.records[s.rows[id].locator.value].secret == t.records[s.rows[id].locator.value].secret
  {
    LaterViewOverRun(START, steps, i, j, id);
    StatesAreReached(START, steps, i);
    LaterViewAtOnce(States(START, steps)[i], id);
  }

  // ---------- a vault generation of a locator names one secret ----------

  // No create can ever happen at a retired locator again.
  predicate Retired(s: State, l: Locator) {
    && l in s.claims && l !in s.records
    && !(s.claims[l] in s.intents && s.intents[s.claims[l]].operation == Create && s.intents[s.claims[l]].locator == l)
  }

  predicate RecordMovesOn(s: State, t: State, l: Locator)
    requires l in s.records
  {
    || Retired(t, l)
    || (l in t.records && (t.records[l] == s.records[l] || t.records[l].generation > s.records[l].generation))
  }

  lemma CallMovesRecord(sys: System, step: Step, l: Locator)
    requires SystemInv(sys) && l in sys.state.claims && sys.state.claims[l] == step.id && step.CallVault?
    ensures RecordStep(sys.state, Apply(sys, step).state, l)
  {
    if step.id in sys.executors {
      assert ExecutorInv(sys.state, step.id, sys.executors[step.id]) && Tracked(sys.state, step.id);
    }
  }

  lemma EndMovesRecord(sys: System, step: Step, l: Locator)
    requires SystemInv(sys) && l in sys.state.claims && sys.state.claims[l] == step.id
    requires step.Finalize? || step.Undo? || step.Mark?
    ensures RecordStep(sys.state, Apply(sys, step).state, l)
  {
    if step.id in sys.executors {
      assert ExecutorInv(sys.state, step.id, sys.executors[step.id]) && Tracked(sys.state, step.id);
    }
  }

  lemma OwnStepMovesRecord(sys: System, step: Step, l: Locator)
    requires SystemInv(sys) && l in sys.state.claims && sys.state.claims[l] == step.id
    requires step.CallVault? || step.Finalize? || step.Undo? || step.Mark?
    ensures RecordStep(sys.state, Apply(sys, step).state, l)
  {
    if step.CallVault? { CallMovesRecord(sys, step, l); } else { EndMovesRecord(sys, step, l); }
  }

  // Steps that leave the vault alone add no create intent at a locator already handed out.
  lemma QuietStepMovesRecord(sys: System, step: Step, l: Locator)
    requires l in sys.state.claims && sys.state.claims[l] == step.id
    requires !(step.CallVault? || step.Finalize? || step.Undo? || step.Mark?)
    ensures RecordStep(sys.state, Apply(sys, step).state, l)
  {
  }

  lemma StepMovesRecord(sys: System, step: Step, l: Locator)
    requires SystemInv(sys)
    ensures RecordStep(sys.state, Apply(sys, step).state, l)
  {
    var s := sys.state;
    if l in s.records { assert Owned(s, l); }
    if l in s.claims {
      if s.claims[l] != step.id {
        OtherStep(sys, step, s.claims[l]);
      } else if step.CallVault? || step.Finalize? || step.Undo? || step.Mark? {
        OwnStepMovesRecord(sys, step, l);
      } else {
        QuietStepMovesRecord(sys, step, l);
      }
    }
  }

  lemma RecordMovesOnTransitive(s: State, t: State, u: State, l: Locator)
    requires l in s.records && RecordMovesOn(s, t, l)
    requires l in t.records ==> RecordMovesOn(t, u, l)
    requires Retired(t, l) ==> Retired(u, l)
    ensures RecordMovesOn(s, u, l)
  {
  }

  // What one step gives: see StepMovesRecord.
  predicate RecordStep(s: State, t: State, l: Locator) {
    (l in s.records ==> RecordMovesOn(s, t, l)) && (Retired(s, l) ==> Retired(t, l))
  }

  lemma RunMovesRecord(sys: System, steps: seq<Step>, k: nat, l: Locator)
    requires SystemInv(sys) && k < |steps|
    ensures RecordStep(States(sys, steps)[k], States(sys, steps)[k + 1], l)
  {
    RunStep(sys, steps, k);
    StepMovesRecord(Run(sys, steps[..k]), steps[k], l);
  }

  lemma {:induction false} RecordMovesOnAlong(states: seq<State>, i: nat, j: nat, l: Locator)
    requires i <= j < |states| && l in states[i].records
    requires forall k | i <= k < j :: RecordStep(states[k], states[k + 1], l)
    ensures RecordMovesOn(states[i], states[j], l)
    decreases j
  {
    if j > i {
      RecordMovesOnAlong(states, i, j - 1, l);
      RecordMovesOnTransitive(states[i], states[j - 1], states[j], l);
    }
  }

  lemma RecordMovesOnOverRun(sys: System, steps: seq<Step>, i: nat, j: nat, l: Locator)
    requires SystemInv(sys) && i <= j <= |steps| && l in States(sys, steps)[i].records
    ensures RecordMovesOn(States(sys, steps)[i], States(sys, steps)[j], l)
  {
    var states := States(sys, steps);
    forall k | i <= k < j ensures RecordStep(states[k], states[k + 1], l) { RunMovesRecord(sys, steps, k, l); }
    RecordMovesOnAlong(states, i, j, l);
  }

  /** At any two moments of a run a locator that holds the same generation holds the same secret,
      so a reader that pins locator and generation never sees another value. */
  lemma OneSecretPerVaultGeneration(steps: seq<Step>, i: nat, j: nat, l: Locator)
    requires i <= j <= |steps| && l in States(START, steps)[i].records && l in States(START, steps)[j].records
    requires States(START, steps)[i].records[l].generation == States(START, steps)[j].records[l].generation
    ensures States(START, steps)[i].records[l] == States(START, steps)[j].records[l]
  {
    RecordMovesOnOverRun(START, steps, i, j, l);
  }

  // ---------- every authorization generation is announced ----------

  ghost predicate Announced(s: State, id: CredentialId, g: nat) {
    exists k :: 0 <= k < |s.events| && s.events[k].credential == id && s.events[k].generation == g
  }

  ghost predicate AllAnnounced(s: State) {
    forall id, g: nat | id in s.rows && 0 < g <= s.rows[id].authorizationGeneration :: Announced(s, id, g)
  }

  // At most one event is appended, and a generation rises only together with its event.
  predicate RisesWithEvent(s: State, t: State) {
    && t.rows.Keys <= t.everAdded
    && s.events <= t.events
    && (forall id | id in t.rows && id in s.rows ::
          || t.rows[id].authorizationGeneration == s.rows[id].authorizationGeneration
          || (&& t.rows[id].authorizationGeneration == s.rows[id].authorizationGeneration + 1
              && |t.events| == |s.events| + 1
              && t.events[|s.events|].credential == id
              && t.events[|s.events|].generation == t.rows[id].authorizationGeneration))
    && (forall id | id in t.rows && id !in s.rows :: t.rows[id].authorizationGeneration == 0)
  }

  predicate IsManagement(step: Step) {
    step.AddCredential? || step.EditProfile? || step.EditAssignments? || step.DisableCredential?
      || step.EnableCredential?
    || step.ArchiveEmpty? || step.DeleteRow?
  }

  lemma RowEditAnnounces(sys: System, step: Step)
    requires sys.state.rows.Keys <= sys.state.everAdded
             && (step.EditProfile? || step.EditAssignments? || step.DisableCredential?)
    ensures RisesWithEvent(sys.state, Apply(sys, step).state)
  {
  }

  lemma LifecycleAnnounces(sys: System, step: Step)
    requires sys.state.rows.Keys <= sys.state.everAdded && (step.EnableCredential? || step.ArchiveEmpty?)
    ensures RisesWithEvent(sys.state, Apply(sys, step).state)
  {
  }

  lemma ExistenceAnnounces(sys: System, step: Step)
    requires sys.state.rows.Keys <= sys.state.everAdded && (step.AddCredential? || step.DeleteRow?)
    ensures RisesWithEvent(sys.state, Apply(sys, step).state)
  {
  }

  lemma ManagementAnnounces(sys: System, step: Step)
    requires sys.state.rows.Keys <= sys.state.everAdded && IsManagement(step)
    ensures RisesWithEvent(sys.state, Apply(sys, step).state)
  {
    if step.EditProfile? || step.EditAssignments? || step.DisableCredential? {
      RowEditAnnounces(sys, step);
    } else if step.AddCredential? || step.DeleteRow? {
      ExistenceAnnounces(sys, step);
    } else {
      LifecycleAnnounces(sys, step);
    }
  }

  lemma FinalizeAnnounces(sys: System, step: Step)
    requires sys.state.rows.Keys <= sys.state.everAdded && step.Finalize?
    ensures RisesWithEvent(sys.state, Apply(sys, step).state)
  {
    if step.id in sys.executors {
      var s, e := sys.state, sys.executors[step.id];
      if MayFinalizeSet(e) {
        SetRaisesNothing(s, e.intent, e.knowledge.generation, step.proof, step.approvalValid);
      } else if MayFinalizeDelete(e) {
        DeleteRaisesNothing(s, e.intent);
      }
    }
  }

  lemma SetRaisesNothing(s: State, intent: Intent, generation: nat, proof: bool, approvalValid: bool)
    requires s.rows.Keys <= s.everAdded
    ensures var r := FinalizeSet(s, intent, generation, proof, approvalValid); r.Success? ==> RisesWithEvent(s, r.value)
  {
  }

  lemma DeleteRaisesNothing(s: State, intent: Intent)
    requires s.rows.Keys <= s.everAdded
    ensures FinalizeDelete(s, intent).Success? ==> RisesWithEvent(s, FinalizeDelete(s, intent).value)
  {
  }

  lemma RecoveryAnnounces(sys: System, step: Step)
    requires sys.state.rows.Keys <= sys.state.everAdded && !IsManagement(step) && !step.Finalize?
    ensures RisesWithEvent(sys.state, Apply(sys, step).state)
  {
  }

  lemma StepAnnounces(sys: System, step: Step)
    requires sys.state.rows.Keys <= sys.state.everAdded
    ensures RisesWithEvent(sys.state, Apply(sys, step).state)
  {
    if IsManagement(step) {
      ManagementAnnounces(sys, step);
    } else if step.Finalize? {
      FinalizeAnnounces(sys, step);
    } else {
      RecoveryAnnounces(sys, step);
    }
  }

  /** Whatever the interleaving, no credential reaches an authorization generation without an
      invalidation event carrying that generation. */
  lemma {:induction false} EveryGenerationIsAnnounced(sys: System, steps: seq<Step>)
    requires AllAnnounced(sys.state) && sys.state.rows.Keys <= sys.state.everAdded
    ensures AllAnnounced(Run(sys, steps).state) && Run(sys, steps).state.rows.Keys <= Run(sys, steps).state.everAdded
    decreases |steps|
  {
    if steps != [] {
      var before := Run(sys, steps[..|steps| - 1]);
      EveryGenerationIsAnnounced(sys, steps[..|steps| - 1]);
      StepAnnounces(before, steps[|steps| - 1]);
      var s, t := before.state, Run(sys, steps).state;
      forall id, g: nat | id in t.rows && 0 < g <= t.rows[id].authorizationGeneration ensures Announced(t, id, g) {
        if id in s.rows && g <= s.rows[id].authorizationGeneration {
          assert Announced(s, id, g);
          var k :| 0 <= k < |s.events| && s.events[k].credential == id && s.events[k].generation == g;
          assert t.events[k] == s.events[k];
        } else {
          assert t.events[|s.events|].credential == id;
        }
      }
    }
  }
}
