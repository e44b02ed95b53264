/** Safety over every run of the coordinator: what every step keeps, whatever its replays resume, and
    exactly which steps strand a credential. */
module CredentialSafety {
  import opened Common
  import opened CredentialState
  import opened CredentialProtocol

  // ---------- each step keeps the invariant ----------

  // A database transaction on one credential that has no executor.
  lemma QuietStepKeepsInv(sys: System, t: State, id: CredentialId)
    requires SystemInv(sys) && id !in sys.executors
    requires RunInv(t) && TouchesOnly(sys.state, t, id)
    ensures SystemInv(sys.(state := t))
  {
    forall o | o in sys.executors ensures ExecutorInv(t, o, sys.executors[o]) {
      OtherExecutors(sys, t, id, o);
    }
  }

  lemma OtherExecutors(sys: System, t: State, id: CredentialId, o: CredentialId)
    requires SystemInv(sys) && o in sys.executors && o != id
    requires TouchesOnly(sys.state, t, id)
    ensures ExecutorInv(t, o, sys.executors[o])
  {
    var s := sys.state;
    assert ExecutorInv(s, o, sys.executors[o]);
    assert o in s.intents - {id} && o in t.intents - {id};
    assert t.intents[o] == (t.intents - {id})[o] == (s.intents - {id})[o] == s.intents[o];
    assert Tracked(s, o);
    var l := s.intents[o].locator;
    assert CurrentLocator(s, o) == Some(l) && s.claims[l] == o;
  }

  lemma AddKeepsInv(s: State, id: CredentialId)
    requires RunInv(s) && Add(s, id).Success?
    ensures id !in s.intents && TouchesOnly(s, Add(s, id).value, id) && RunInv(Add(s, id).value)
  {
    forall l | l in s.records ensures s.claims[l] != id { assert Owned(s, l); }
    FrameInv(s, Add(s, id).value, id);
  }

  lemma DeleteRowKeepsInv(s: State, id: CredentialId, v: nat)
    requires RunInv(s) && DeleteArchived(s, id, v).Success?
    ensures id !in s.intents && TouchesOnly(s, DeleteArchived(s, id, v).value, id)
            && RunInv(DeleteArchived(s, id, v).value)
  {
    assert Tracked(s, id) && CurrentLocator(s, id).None?;
    forall l | l in s.records ensures s.claims[l] != id { assert Owned(s, l); }
    FrameInv(s, DeleteArchived(s, id, v).value, id);
  }

  // A change of an idle row that neither gives it a record nor takes one away.
  ghost predicate IdleRowChange(s: State, t: State, id: CredentialId) {
    && id in s.rows && s.rows[id].vaultState == Idle && id in t.rows
    && t == s.(rows := s.rows[id := t.rows[id]], events := t.events)
    && t.rows[id].vaultState == Idle
    && t.rows[id].locator == s.rows[id].locator && t.rows[id].generation == s.rows[id].generation
    && (t.rows[id].status in {Configured, Disabled} <==> s.rows[id].status in {Configured, Disabled})
  }

  lemma IdleRowChangeKeepsInv(s: State, t: State, id: CredentialId)
    requires RunInv(s) && IdleRowChange(s, t, id)
    ensures id !in s.intents && TouchesOnly(s, t, id) && RunInv(t)
  {
    assert Tracked(s, id) && CurrentLocator(t, id) == CurrentLocator(s, id);
    forall l | l in t.records && l in t.claims && t.claims[l] == id ensures Owned(t, l) { assert Owned(s, l); }
    FrameInv(s, t, id);
  }

  lemma BeginSetTouches(s: State, id: CredentialId, v: nat, l: Locator, key: Option<nat>)
    requires RunInv(s) && l !in s.claims && PrepareSet(s, id, v, l, key).Success?
    ensures TouchesOnly(s, PrepareSet(s, id, v, l, key).value, id)
    ensures id !in s.intents && id in PrepareSet(s, id, v, l, key).value.intents
    ensures PrepareSet(s, id, v, l, key).value.intents[id].SetsValue()
  {
    assert Tracked(s, id);
    forall k | k in s.records ensures k in s.claims { assert Owned(s, k); }
  }

  lemma BeginSetKeepsInv(s: State, id: CredentialId, v: nat, l: Locator, key: Option<nat>)
    requires RunInv(s) && l !in s.claims
    requires PrepareSet(s, id, v, l, key).Success?
    ensures TouchesOnly(s, PrepareSet(s, id, v, l, key).value, id) && RunInv(PrepareSet(s, id, v, l, key).value)
    ensures id !in s.intents && id in PrepareSet(s, id, v, l, key).value.intents
    ensures PrepareSet(s, id, v, l, key).value.intents[id].SetsValue()
  {
    var t := PrepareSet(s, id, v, l, key).value;
    BeginSetTouches(s, id, v, l, key);
    assert Tracked(s, id);
    forall k | k in s.records ensures k in s.claims { assert Owned(s, k); }
    forall k | k in t.records && k in t.claims && t.claims[k] == id ensures Owned(t, k) { assert Owned(s, k); }
    FrameInv(s, t, id);
  }

  lemma BeginDeleteTouches(s: State, id: CredentialId, v: nat, archive: bool)
    requires RunInv(s) && PrepareDelete(s, id, v, archive).Success?
    ensures TouchesOnly(s, PrepareDelete(s, id, v, archive).value, id)
    ensures id !in s.intents && id in PrepareDelete(s, id, v, archive).value.intents
    ensures !PrepareDelete(s, id, v, archive).value.intents[id].SetsValue()
  {
    assert Tracked(s, id);
  }

  lemma BeginDeleteKeepsInv(s: State, id: CredentialId, v: nat, archive: bool)
    requires RunInv(s) && PrepareDelete(s, id, v, archive).Success?
    ensures TouchesOnly(s, PrepareDelete(s, id, v, archive).value, id) && RunInv(PrepareDelete(s, id, v, archive).value)
    ensures id !in s.intents && id in PrepareDelete(s, id, v, archive).value.intents
    ensures !PrepareDelete(s, id, v, archive).value.intents[id].SetsValue()
  {
    var t := PrepareDelete(s, id, v, archive).value;
    BeginDeleteTouches(s, id, v, archive);
    assert Tracked(s, id);
    forall k | k in t.records && k in t.claims && t.claims[k] == id ensures Owned(t, k) { assert Owned(s, k); }
    FrameInv(s, t, id);
  }

  lemma CallTouches(sys: System, id: CredentialId, secret: Secret, applied: bool, replied: bool)
    requires SystemInv(sys) && id in sys.executors && MayCall(sys.executors[id])
    ensures TouchesOnly(sys.state, Call(sys, id, secret, applied, replied).state, id)
  {
    assert ExecutorInv(sys.state, id, sys.executors[id]) && Tracked(sys.state, id);
  }

  // The vault call an executor of the right kind makes keeps the record within the two
  // generations its intent allows.
  lemma CallKeepsInv(sys: System, id: CredentialId, secret: Secret, applied: bool, replied: bool)
    requires SystemInv(sys) && id in sys.executors && MayCall(sys.executors[id])
    ensures TouchesOnly(sys.state, Call(sys, id, secret, applied, replied).state, id)
    ensures RunInv(Call(sys, id, secret, applied, replied).state)
    ensures ExecutorInv(Call(sys, id, secret, applied, replied).state, id,
                        Call(sys, id, secret, applied, replied).executors[id])
  {
    var s, t := sys.state, Call(sys, id, secret, applied, replied).state;
    CallTouches(sys, id, secret, applied, replied);
    assert ExecutorInv(s, id, sys.executors[id]) && Tracked(s, id);
    var l := s.intents[id].locator;
    assert CurrentLocator(s, id) == Some(l);
    forall k | k in t.records && k in t.claims && t.claims[k] == id ensures Owned(t, k) {
      if k != l { assert Owned(s, k); }
    }
    FrameInv(s, t, id);
  }

  lemma FinalizeSetTouches(s: State, id: CredentialId, e: Executor, proof: bool, approvalValid: bool)
    requires RunInv(s) && ExecutorInv(s, id, e) && MayFinalizeSet(e)
    requires FinalizeSet(s, e.intent, e.knowledge.generation, proof, approvalValid).Success?
    ensures TouchesOnly(s, FinalizeSet(s, e.intent, e.knowledge.generation, proof, approvalValid).value, id)
  {
    assert Tracked(s, id);
    RowUpdateTouches(s, FinalizeSet(s, e.intent, e.knowledge.generation, proof, approvalValid).value, id);
  }

  // A transaction that updates one row, with its approval and intent, and leaves the vault alone.
  lemma RowUpdateTouches(s: State, t: State, id: CredentialId)
    requires id in s.rows && id in t.rows && t.rows == s.rows[id := t.rows[id]]
    requires t.intents - {id} == s.intents - {id} && t.approvals - {id} == s.approvals - {id}
    requires t.records == s.records && t.claims == s.claims && t.everAdded == s.everAdded
    ensures TouchesOnly(s, t, id)
  {
  }

  lemma FinalizeSetKeepsInv(s: State, id: CredentialId, e: Executor, proof: bool, approvalValid: bool)
    requires RunInv(s) && ExecutorInv(s, id, e) && MayFinalizeSet(e)
    requires FinalizeSet(s, e.intent, e.knowledge.generation, proof, approvalValid).Success?
    ensures TouchesOnly(s, FinalizeSet(s, e.intent, e.knowledge.generation, proof, approvalValid).value, id)
    ensures RunInv(FinalizeSet(s, e.intent, e.knowledge.generation, proof, approvalValid).value)
  {
    var t := FinalizeSet(s, e.intent, e.knowledge.generation, proof, approvalValid).value;
    FinalizeSetTouches(s, id, e, proof, approvalValid);
    assert Tracked(s, id);
    forall k | k in t.records && k in t.claims && t.claims[k] == id ensures Owned(t, k) { assert Owned(s, k); }
    FrameInv(s, t, id);
  }

  lemma FinalizeDeleteTouches(s: State, id: CredentialId, e: Executor)
    requires RunInv(s) && ExecutorInv(s, id, e) && MayFinalizeDelete(e) && FinalizeDelete(s, e.intent).Success?
    ensures TouchesOnly(s, FinalizeDelete(s, e.intent).value, id)
  {
    assert Tracked(s, id);
  }

  lemma FinalizeDeleteKeepsInv(s: State, id: CredentialId, e: Executor)
    requires RunInv(s) && ExecutorInv(s, id, e) && MayFinalizeDelete(e) && FinalizeDelete(s, e.intent).Success?
    ensures TouchesOnly(s, FinalizeDelete(s, e.intent).value, id) && RunInv(FinalizeDelete(s, e.intent).value)
  {
    var t := FinalizeDelete(s, e.intent).value;
    FinalizeDeleteTouches(s, id, e);
    assert Tracked(s, id) && CurrentLocator(s, id) == Some(e.intent.locator);
    forall k | k in s.records ensures s.claims[k] != id { assert Owned(s, k); }
    FrameInv(s, t, id);
  }

  lemma UndoKeepsInv(s: State, id: CredentialId, e: Executor)
    requires RunInv(s) && ExecutorInv(s, id, e) && MayUndo(e) && Rollback(s, e.intent).Success?
    ensures TouchesOnly(s, Rollback(s, e.intent).value, id) && RunInv(Rollback(s, e.intent).value)
  {
    var t := Rollback(s, e.intent).value;
    assert Tracked(s, id) && CurrentLocator(s, id) == Some(e.intent.locator);
    forall k | k in t.records && k in t.claims && t.claims[k] == id ensures Owned(t, k) { assert Owned(s, k); }
    FrameInv(s, t, id);
  }

  lemma MarkKeepsInv(s: State, id: CredentialId, category: Category)
    requires RunInv(s) && id in s.intents
    ensures TouchesOnly(s, MarkReconcile(s, s.intents[id], category), id)
            && RunInv(MarkReconcile(s, s.intents[id], category))
  {
    assert Tracked(s, id);
    var t := MarkReconcile(s, s.intents[id], category);
    RowUpdateTouches(s, t, id);
    forall k | k in t.records && k in t.claims && t.claims[k] == id ensures Owned(t, k) { assert Owned(s, k); }
    FrameInv(s, t, id);
  }

  // Removing or changing only the executor of one credential.
  lemma ExecutorStepKeepsInv(sys: System, next: System, id: CredentialId)
    requires SystemInv(sys) && TouchesOnly(sys.state, next.state, id) && RunInv(next.state)
    requires next.executors - {id} == sys.executors - {id}
    requires id in next.executors ==> ExecutorInv(next.state, id, next.executors[id])
    ensures SystemInv(next)
  {
    forall o | o in next.executors ensures ExecutorInv(next.state, o, next.executors[o]) {
      if o != id {
        assert o in next.executors - {id} && o in sys.executors - {id};
        assert next.executors[o] == (next.executors - {id})[o] == (sys.executors - {id})[o] == sys.executors[o];
        OtherExecutors(sys, next.state, id, o);
      }
    }
  }

  // The executor of a credential ends, or learns something, while the stores stay as they are.
  lemma KnowledgeStepKeepsInv(sys: System, next: System, id: CredentialId)
    requires SystemInv(sys) && next.state == sys.state
    requires next.executors - {id} == sys.executors - {id}
    requires id in next.executors ==> ExecutorInv(next.state, id, next.executors[id])
    ensures SystemInv(next)
  {
    ExecutorStepKeepsInv(sys, next, id);
  }

  lemma ConcludeKeepsInv(sys: System, id: CredentialId, r: Result<State, DbError>)
    requires SystemInv(sys) && id in sys.executors
    requires r.Success? ==> TouchesOnly(sys.state, r.value, id) && RunInv(r.value)
    ensures SystemInv(Conclude(sys, id, r))
  {
    var next := Conclude(sys, id, r);
    assert ExecutorInv(sys.state, id, sys.executors[id]);
    assert next.executors - {id} == sys.executors - {id};
    if r.Success? {
      ExecutorStepKeepsInv(sys, next, id);
    } else {
      KnowledgeStepKeepsInv(sys, next, id);
    }
  }

  lemma SetStepKeepsInv(sys: System, id: CredentialId, proof: bool, approvalValid: bool)
    requires SystemInv(sys) && id in sys.executors && MayFinalizeSet(sys.executors[id])
    ensures var e := sys.executors[id];
            SystemInv(Conclude(sys, id, FinalizeSet(sys.state, e.intent, e.knowledge.generation, proof, approvalValid)))
  {
    var e := sys.executors[id];
    assert ExecutorInv(sys.state, id, e);
    var r := FinalizeSet(sys.state, e.intent, e.knowledge.generation, proof, approvalValid);
    if r.Success? { FinalizeSetKeepsInv(sys.state, id, e, proof, approvalValid); }
    ConcludeKeepsInv(sys, id, r);
  }

  lemma DeleteStepKeepsInv(sys: System, id: CredentialId)
    requires SystemInv(sys) && id in sys.executors && MayFinalizeDelete(sys.executors[id])
    ensures SystemInv(Conclude(sys, id, FinalizeDelete(sys.state, sys.executors[id].intent)))
  {
    var e := sys.executors[id];
    assert ExecutorInv(sys.state, id, e);
    var r := FinalizeDelete(sys.state, e.intent);
    if r.Success? { FinalizeDeleteKeepsInv(sys.state, id, e); }
    ConcludeKeepsInv(sys, id, r);
  }

  lemma UndoStepKeepsInv(sys: System, id: CredentialId)
    requires SystemInv(sys) && id in sys.executors && MayUndo(sys.executors[id])
    ensures SystemInv(Conclude(sys, id, Rollback(sys.state, sys.executors[id].intent)))
  {
    var e := sys.executors[id];
    assert ExecutorInv(sys.state, id, e);
    var r := Rollback(sys.state, e.intent);
    if r.Success? { UndoKeepsInv(sys.state, id, e); }
    ConcludeKeepsInv(sys, id, r);
  }

  lemma BeginKeepsInv(sys: System, id: CredentialId, r: Result<State, DbError>, caller: Caller)
    requires SystemInv(sys) && id !in sys.state.intents && r.Success?
    requires TouchesOnly(sys.state, r.value, id) && RunInv(r.value) && id in r.value.intents
    requires caller == if r.value.intents[id].SetsValue() then SetCaller else DeleteCaller
    ensures SystemInv(Begin(sys, id, r, caller))
  {
    var next := Begin(sys, id, r, caller);
    assert next.executors - {id} == sys.executors - {id};
    ExecutorStepKeepsInv(sys, next, id);
  }

  lemma BeginStepKeepsInv(sys: System, step: Step)
    requires SystemInv(sys) && (step.BeginSet? || step.BeginDelete?)
    ensures SystemInv(Apply(sys, step))
  {
    var s, id := sys.state, step.id;
    if step.BeginSet? {
      var r := PrepareSet(s, id, step.version, step.freshLocator, step.approvalKey);
      if step.freshLocator !in s.claims && r.Success? {
        BeginSetKeepsInv(s, id, step.version, step.freshLocator, step.approvalKey);
        BeginKeepsInv(sys, id, r, SetCaller);
      }
    } else {
      var r := PrepareDelete(s, id, step.version, step.archive);
      if r.Success? {
        BeginDeleteKeepsInv(s, id, step.version, step.archive);
        BeginKeepsInv(sys, id, r, DeleteCaller);
      }
    }
  }

  lemma CallStepKeepsInv(sys: System, step: Step)
    requires SystemInv(sys) && step.CallVault?
    ensures SystemInv(Apply(sys, step))
  {
    var id := step.id;
    if id in sys.executors && MayCall(sys.executors[id]) {
      CallOutcomeKeepsInv(sys, id, step.secret, step.applied, step.replied);
    }
  }

  lemma CallOutcomeKeepsInv(sys: System, id: CredentialId, secret: Secret, applied: bool, replied: bool)
    requires SystemInv(sys) && id in sys.executors && MayCall(sys.executors[id])
    ensures SystemInv(Call(sys, id, secret, applied, replied))
  {
    CallKeepsInv(sys, id, secret, applied, replied);
    var next := Call(sys, id, secret, applied, replied);
    assert next.executors - {id} == sys.executors - {id};
    ExecutorStepKeepsInv(sys, next, id);
  }

  lemma MarkStepKeepsInv(sys: System, step: Step)
    requires SystemInv(sys) && step.Mark?
    ensures SystemInv(Apply(sys, step))
  {
    var id := step.id;
    if id in sys.executors {
      assert ExecutorInv(sys.state, id, sys.executors[id]);
      MarkKeepsInv(sys.state, id, step.category);
      var next := Apply(sys, step);
      assert next.executors - {id} == sys.executors - {id};
      ExecutorStepKeepsInv(sys, next, id);
    }
  }

  lemma ExecutorStep(sys: System, step: Step)
    requires SystemInv(sys)
    requires step.PickUp? || step.AskMetadata? || step.Crash?
    ensures SystemInv(Apply(sys, step))
  {
    var s, next, id := sys.state, Apply(sys, step), step.id;
    assert next.executors - {id} == sys.executors - {id};
    if id in sys.executors { assert ExecutorInv(s, id, sys.executors[id]); }
    if id in s.intents { assert Tracked(s, id); }
    KnowledgeStepKeepsInv(sys, next, id);
  }

  lemma LifecycleStep(sys: System, step: Step)
    requires SystemInv(sys)
    requires step.AddCredential? || step.EditProfile? || step.EditAssignments? || step.DisableCredential?
          || step.EnableCredential? || step.ArchiveEmpty? || step.DeleteRow?
    ensures SystemInv(Apply(sys, step)) && TouchesOnly(sys.state, Apply(sys, step).state, step.id)
  {
    var s, t, id := sys.state, Apply(sys, step).state, step.id;
    if t != s {
      if step.AddCredential? {
        AddKeepsInv(s, id);
      } else if step.DeleteRow? {
        DeleteRowKeepsInv(s, id, step.version);
      } else {
        assert IdleRowChange(s, t, id);
        IdleRowChangeKeepsInv(s, t, id);
      }
      assert forall o | o in sys.executors :: ExecutorInv(s, o, sys.executors[o]);
      QuietStepKeepsInv(sys, t, id);
    }
  }

  lemma StepKeepsInv(sys: System, step: Step)
    requires SystemInv(sys)
    ensures SystemInv(Apply(sys, step))
  {
    match step
    case BeginSet(_, _, _, _) => BeginStepKeepsInv(sys, step);
    case BeginDelete(_, _, _) => BeginStepKeepsInv(sys, step);
    case Finalize(id, proof, ok) =>
      if id in sys.executors && MayFinalizeSet(sys.executors[id]) {
        SetStepKeepsInv(sys, id, proof, ok);
      } else if id in sys.executors && MayFinalizeDelete(sys.executors[id]) {
        DeleteStepKeepsInv(sys, id);
      }
    case Undo(id) => if id in sys.executors && MayUndo(sys.executors[id]) { UndoStepKeepsInv(sys, id); }
    case PickUp(_, _) => ExecutorStep(sys, step);
    case CallVault(_, _, _, _) => CallStepKeepsInv(sys, step);
    case AskMetadata(_, _) => ExecutorStep(sys, step);
    case Mark(_, _) => MarkStepKeepsInv(sys, step);
    case Crash(_) => ExecutorStep(sys, step);
    case _ => LifecycleStep(sys, step);
  }

  // ---------- a step concerns one credential ----------

  lemma ConcludeTouchesOnly(sys: System, id: CredentialId, r: Result<State, DbError>)
    requires id in sys.executors && (r.Success? ==> TouchesOnly(sys.state, r.value, id))
    ensures TouchesOnly(sys.state, Conclude(sys, id, r).state, id)
  {
  }

  lemma FinalizeTouchesOnly(sys: System, id: CredentialId, proof: bool, approvalValid: bool)
    requires SystemInv(sys)
    ensures TouchesOnly(sys.state, Apply(sys, Finalize(id, proof, approvalValid)).state, id)
  {
    if id in sys.executors {
      var e := sys.executors[id];
      assert ExecutorInv(sys.state, id, e);
      if MayFinalizeSet(e) {
        var r := FinalizeSet(sys.state, e.intent, e.knowledge.generation, proof, approvalValid);
        if r.Success? { FinalizeSetKeepsInv(sys.state, id, e, proof, approvalValid); }
        ConcludeTouchesOnly(sys, id, r);
      } else if MayFinalizeDelete(e) {
        var r := FinalizeDelete(sys.state, e.intent);
        if r.Success? { FinalizeDeleteKeepsInv(sys.state, id, e); }
        ConcludeTouchesOnly(sys, id, r);
      }
    }
  }

  lemma UndoTouchesOnly(sys: System, id: CredentialId)
    requires SystemInv(sys)
    ensures TouchesOnly(sys.state, Apply(sys, Undo(id)).state, id)
  {
    if id in sys.executors && MayUndo(sys.executors[id]) {
      var e := sys.executors[id];
      assert ExecutorInv(sys.state, id, e);
      var r := Rollback(sys.state, e.intent);
      if r.Success? { UndoKeepsInv(sys.state, id, e); }
      ConcludeTouchesOnly(sys, id, r);
    }
  }

  lemma BeginTouchesOnly(sys: System, step: Step)
    requires SystemInv(sys) && (step.BeginSet? || step.BeginDelete?)
    ensures TouchesOnly(sys.state, Apply(sys, step).state, step.id)
  {
    var s, id := sys.state, step.id;
    if step.BeginSet? {
      if step.freshLocator !in s.claims
        && PrepareSet(s, id, step.version, step.freshLocator, step.approvalKey).Success? {
        BeginSetTouches(s, id, step.version, step.freshLocator, step.approvalKey);
      }
    } else if PrepareDelete(s, id, step.version, step.archive).Success? {
      BeginDeleteTouches(s, id, step.version, step.archive);
    }
  }

  lemma CallTouchesOnly(sys: System, step: Step)
    requires SystemInv(sys) && step.CallVault?
    ensures TouchesOnly(sys.state, Apply(sys, step).state, step.id)
  {
    if step.id in sys.executors && MayCall(sys.executors[step.id]) {
      CallTouches(sys, step.id, step.secret, step.applied, step.replied);
    }
  }

  lemma MarkTouchesOnly(sys: System, step: Step)
    requires SystemInv(sys) && step.Mark?
    ensures TouchesOnly(sys.state, Apply(sys, step).state, step.id)
  {
    if step.id in sys.executors {
      assert ExecutorInv(sys.state, step.id, sys.executors[step.id]);
      MarkKeepsInv(sys.state, step.id, step.category);
    }
  }

  lemma StepTouchesOnly(sys: System, step: Step)
    requires SystemInv(sys)
    ensures TouchesOnly(sys.state, Apply(sys, step).state, step.id)
  {
    match step
    case BeginSet(_, _, _, _) => BeginTouchesOnly(sys, step);
    case BeginDelete(_, _, _) => BeginTouchesOnly(sys, step);
    case CallVault(_, _, _, _) => CallTouchesOnly(sys, step);
    case Finalize(id, proof, ok) => FinalizeTouchesOnly(sys, id, proof, ok);
    case Undo(id) => UndoTouchesOnly(sys, id);
    case Mark(_, _) => MarkTouchesOnly(sys, step);
    case PickUp(_, _) =>
    case AskMetadata(_, _) =>
    case Crash(_) =>
    case _ => LifecycleStep(sys, step);
  }

  /** Safety over every run, whatever intents its replays resume: an intent row exists exactly when the
      vault state is not idle, an idle configured or disabled credential holds a record at exactly its
      generation, a pending one at most at a generation its intent allows, and no record is orphaned. */
  lemma {:induction false} EveryRunKeepsInv(sys: System, steps: seq<Step>)
    requires SystemInv(sys)
    ensures SystemInv(Run(sys, steps))
    decreases |steps|
  {
    if steps != [] {
      EveryRunKeepsInv(sys, steps[..|steps| - 1]);
      StepKeepsInv(Run(sys, steps[..|steps| - 1]), steps[|steps| - 1]);
    }
  }

  // ---------- when a credential is stranded ----------

  // The executor was taken up by a replay of the other kind.
  predicate Foreign(e: Executor) {
    (e.caller.SetCaller? && !e.intent.SetsValue()) || (e.caller.DeleteCaller? && e.intent.SetsValue())
  }

  // A vault call of such an executor takes effect on the record its intent still expects.
  predicate Strands(sys: System, step: Step) {
    && step.CallVault? && step.applied && step.id in sys.executors && Foreign(sys.executors[step.id])
    && var intent := sys.executors[step.id].intent;
       intent.expected.Some? && Holds(sys.state, step.id, intent.locator, intent.expected.value)
  }

  // A replayed delete that removed the record of a replace finalizes it, which the transaction allows
  // for a row that is marked for recovery.
  predicate Frees(sys: System, step: Step) {
    && step.Finalize? && step.id in sys.executors && sys.executors[step.id].caller.DeleteCaller?
    && sys.executors[step.id].knowledge.RecordGone?
    && step.id in sys.state.rows && sys.state.rows[step.id].vaultState == VaultState.Reconcile
  }

  lemma CallStrands(sys: System, step: Step)
    requires SystemInv(sys) && step.CallVault?
    ensures Stranded(Apply(sys, step).state, step.id) <==> Stranded(sys.state, step.id) || Strands(sys, step)
  {
    if step.id in sys.executors {
      assert ExecutorInv(sys.state, step.id, sys.executors[step.id]) && Tracked(sys.state, step.id);
    }
  }

  lemma FinalizeFrees(sys: System, step: Step)
    requires SystemInv(sys) && step.Finalize?
    ensures Stranded(Apply(sys, step).state, step.id) <==> Stranded(sys.state, step.id) && !Frees(sys, step)
  {
    if step.id in sys.executors {
      assert ExecutorInv(sys.state, step.id, sys.executors[step.id]) && Tracked(sys.state, step.id);
    }
  }

  lemma EndKeepsStranded(sys: System, step: Step)
    requires SystemInv(sys) && (step.Undo? || step.Mark?)
    ensures Stranded(Apply(sys, step).state, step.id) <==> Stranded(sys.state, step.id)
  {
    if step.id in sys.executors {
      assert ExecutorInv(sys.state, step.id, sys.executors[step.id]) && Tracked(sys.state, step.id);
    }
  }

  lemma OwnQuietStepStrandsNobody(sys: System, step: Step)
    requires SystemInv(sys) && !(step.CallVault? || step.Finalize? || step.Undo? || step.Mark?)
    ensures Stranded(Apply(sys, step).state, step.id) <==> Stranded(sys.state, step.id)
  {
    if step.id in sys.state.rows { assert Tracked(sys.state, step.id); }
  }

  lemma OtherStepStrandsNobody(sys: System, step: Step, id: CredentialId)
    requires SystemInv(sys) && step.id != id
    ensures Stranded(Apply(sys, step).state, id) <==> Stranded(sys.state, id)
  {
    StepTouchesOnly(sys, step);
    var s, t := sys.state, Apply(sys, step).state;
    StepKeepsInv(sys, step);
    if id in s.rows { OthersStay(s, t, step.id, id); }
    assert id in t.intents <==> id in t.intents - {step.id};
    assert id in s.intents <==> id in s.intents - {step.id};
  }

  /** A step strands a credential exactly by a vault call of a replay of the other kind that takes effect
      on the record its intent still expects, and frees one exactly by the finalizing transaction of a
      replayed delete on a row marked for recovery; no other step of any credential does either. */
  lemma StrandedAfterStepIff(sys: System, step: Step, id: CredentialId)
    requires SystemInv(sys)
    ensures Stranded(Apply(sys, step).state, id) <==>
              if Stranded(sys.state, id) then
                !(step.id == id && Frees(sys, step)) else step.id == id && Strands(sys, step)
  {
    if step.id != id {
      OtherStepStrandsNobody(sys, step, id);
    } else if step.CallVault? {
      CallStrands(sys, step);
    } else if step.Finalize? {
      FinalizeFrees(sys, step);
    } else if step.Undo? || step.Mark? {
      EndKeepsStranded(sys, step);
    } else {
      OwnQuietStepStrandsNobody(sys, step);
    }
  }

  lemma ClearIffNotStranded(s: State, id: CredentialId)
    requires RunInv(s)
    ensures Clear(s, id) <==> !Stranded(s, id)
  {
    if id in s.rows { ConsistentIffNotStranded(s, id); }
  }

  lemma ClearAfterStepIff(sys: System, step: Step, id: CredentialId)
    requires SystemInv(sys) && Clear(sys.state, id)
    ensures SystemInv(Apply(sys, step))
    ensures Clear(Apply(sys, step).state, id) <==> !(step.id == id && Strands(sys, step))
  {
    StepKeepsInv(sys, step);
    StrandedAfterStepIff(sys, step, id);
    ClearIffNotStranded(sys.state, id);
    ClearIffNotStranded(Apply(sys, step).state, id);
  }

  /** Over every run from the empty stores, whatever its replays resume: each credential is consistent, or
      it is stranded and then tracked still. */
  lemma ConsistentOrStranded(steps: seq<Step>, id: CredentialId)
    requires id in Run(START, steps).state.rows
    ensures var s := Run(START, steps).state;
            && RunInv(s) && Tracked(s, id)
            && (Consistent(s, id) <==> !Stranded(s, id))
            && (id !in s.intents ==> Consistent(s, id))
  {
    EveryRunKeepsInv(START, steps);
    ConsistentIffNotStranded(Run(START, steps).state, id);
  }

  // ---------- runs whose replays are of their own kind ----------

  predicate OwnCaller(sys: System, id: CredentialId) { id in sys.executors ==> !Foreign(sys.executors[id]) }

  lemma StepKeepsCaller(sys: System, step: Step, id: CredentialId)
    requires SystemInv(sys) && OwnCaller(sys, id) && (step.id == id ==> OwnKind(sys, step))
    ensures OwnCaller(Apply(sys, step), id)
  {
    if step.id != id {
      CallerOfOther(sys, step, id);
    } else if step.BeginSet? || step.BeginDelete? {
      BegunByOwnKind(sys, step);
    } else if step.Finalize? || step.Undo? {
      EndedCaller(sys, step);
    }
  }

  lemma CallerOfOther(sys: System, step: Step, id: CredentialId)
    requires step.id != id
    ensures id in Apply(sys, step).executors <==> id in sys.executors
    ensures id in sys.executors ==> Apply(sys, step).executors[id] == sys.executors[id]
  {
  }

  lemma EndedCaller(sys: System, step: Step)
    requires OwnCaller(sys, step.id) && (step.Finalize? || step.Undo?)
    ensures OwnCaller(Apply(sys, step), step.id)
  {
  }

  lemma BegunByOwnKind(sys: System, step: Step)
    requires SystemInv(sys) && OwnCaller(sys, step.id) && (step.BeginSet? || step.BeginDelete?)
    ensures OwnCaller(Apply(sys, step), step.id)
  {
    if step.BeginSet? {
      var r := PrepareSet(sys.state, step.id, step.version, step.freshLocator, step.approvalKey);
      if step.freshLocator !in sys.state.claims && r.Success? {
        BeginSetTouches(sys.state, step.id, step.version, step.freshLocator, step.approvalKey);
      }
    } else if PrepareDelete(sys.state, step.id, step.version, step.archive).Success? {
      BeginDeleteTouches(sys.state, step.id, step.version, step.archive);
    }
  }

  lemma OwnKindPrefix(sys: System, steps: seq<Step>, id: CredentialId)
    requires steps != [] && OwnKindRun(sys, steps, id)
    ensures var n := |steps| - 1;
            OwnKindRun(sys, steps[..n], id) && (steps[n].id == id ==> OwnKind(Run(sys, steps[..n]), steps[n]))
  {
    var n := |steps| - 1;
    forall i | 0 <= i < n && steps[..n][i].id == id ensures OwnKind(Run(sys, steps[..n][..i]), steps[..n][i]) {
      assert steps[..n][..i] == steps[..i];
      assert OwnKind(Run(sys, steps[..i]), steps[i]);
    }
    if steps[n].id == id { assert OwnKind(Run(sys, steps[..n]), steps[n]); }
  }

  /** A credential whose own replays resume intents of their own kind is never stranded, whatever the
      replays of other credentials do. */
  lemma {:induction false} OwnKindKeepsClear(sys: System, steps: seq<Step>, id: CredentialId)
    requires SystemInv(sys) && OwnCaller(sys, id) && Clear(sys.state, id) && OwnKindRun(sys, steps, id)
    ensures var end := Run(sys, steps); SystemInv(end) && OwnCaller(end, id) && Clear(end.state, id)
    decreases |steps|
  {
    if steps != [] {
      var n := |steps| - 1;
      OwnKindPrefix(sys, steps, id);
      OwnKindKeepsClear(sys, steps[..n], id);
      StepKeepsCaller(Run(sys, steps[..n]), steps[n], id);
      ClearAfterStepIff(Run(sys, steps[..n]), steps[n], id);
    }
  }

  /** If every replay of a run resumes an intent of its own kind, every credential is consistent. */
  lemma OwnKindRunKeepsInv(steps: seq<Step>)
    requires forall id :: OwnKindRun(START, steps, id)
    ensures Inv(Run(START, steps).state)
  {
    EveryRunKeepsInv(START, steps);
    forall id | id in Run(START, steps).state.rows ensures Consistent(Run(START, steps).state, id) {
      OwnKindKeepsClear(START, steps, id);
    }
  }
}
