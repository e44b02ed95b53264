/** Recovery of an interrupted vault operation from its intent: what one pass achieves, that it is
    itself a run of the step machine, and that it never settles a stranded credential. */
module CredentialRecovery {
  import opened Common
  import opened CredentialState
  import opened CredentialProtocol
  import opened CredentialSafety

  // What the stores and the caller offer while one recovery runs.
  datatype Environment = Environment(
    vaultReachable: bool,
    deleteApplied: bool,
    deleteReplied: bool,
    databaseUp: bool,
    markUp: bool,
    proof: bool,
    approvalValid: bool)
  {
    predicate Reachable() { vaultReachable && deleteApplied && deleteReplied && databaseUp && markUp }
  }

  datatype Outcome = Reconciled | Unresolved | Threw

  function Marked(s: State, intent: Intent, category: Category, env: Environment): (State, Outcome) {
    (if env.markUp then MarkReconcile(s, intent, category) else s, Unresolved)
  }

  // The vault reports no record at the intent's locator.
  function RecoverAbsent(s: State, intent: Intent, env: Environment): (State, Outcome) {
    if intent.operation == Replace then Marked(s, intent, PriorRecordAbsent, env)
    else
      var r := if intent.operation == Create then Rollback(s, intent) else FinalizeDelete(s, intent);
      if env.databaseUp && r.Success? then (r.value, Reconciled) else (s, Threw)
  }

  // The vault reports generation `g` for an intent that sets a value.
  function RecoverSet(s: State, intent: Intent, g: nat, env: Environment): (State, Outcome) {
    if intent.target == Some(g) then
      var r := FinalizeSet(s, intent, g, env.proof, env.approvalValid);
      if env.databaseUp && r.Success? then (r.value, Reconciled) else Marked(s, intent, VaultUnavailable, env)
    else if intent.operation == Replace && intent.expected == Some(g) then
      var r := Rollback(s, intent);
      if env.databaseUp && r.Success? then (r.value, Reconciled) else Marked(s, intent, VaultUnavailable, env)
    else Marked(s, intent, GenerationUnresolved, env)
  }

  // The vault reports generation `g` for an intent that deletes one.
  function RecoverDelete(s: State, intent: Intent, g: nat, env: Environment): (State, Outcome) {
    if intent.expected == Some(g) then
      var d := VaultDelete(s.records, intent.locator, intent.expected, intent.credential);
      var s1 := if d.Success? && env.deleteApplied then s.(records := d.value) else s;
      var r := FinalizeDelete(s1, intent);
      if d.Success? && env.deleteApplied && env.deleteReplied && env.databaseUp && r.Success? then (r.value, Reconciled)
      else Marked(s1, intent, GenerationUnresolved, env)
    else Marked(s, intent, GenerationUnresolved, env)
  }

  function TryReconcile(s: State, intent: Intent, env: Environment): (State, Outcome) {
    if !env.vaultReachable then Marked(s, intent, VaultUnavailable, env) else
    match VaultMetadata(s.records, intent.locator, intent.credential)
    case Failure(e) =>
      if e.RecordNotFound? then RecoverAbsent(s, intent, env) else Marked(s, intent, VaultUnavailable, env)
    case Success(g) =>
      if intent.SetsValue() then RecoverSet(s, intent, g, env) else RecoverDelete(s, intent, g, env)
  }

  // ---------- one recovery is a run of the step machine ----------

  function MarkStep(id: CredentialId, category: Category, env: Environment): Step {
    if env.markUp then Mark(id, category) else Crash(id)
  }

  function FinishStep(id: CredentialId, env: Environment): Step {
    if env.databaseUp then Finalize(id, env.proof, env.approvalValid) else Crash(id)
  }

  function AbsentSteps(intent: Intent, env: Environment): seq<Step> {
    var id := intent.credential;
    if intent.operation == Replace then [MarkStep(id, PriorRecordAbsent, env)]
    else if intent.operation == Create then [if env.databaseUp then Undo(id) else Crash(id)]
    else [FinishStep(id, env)]
  }

  function SetSteps(s: State, intent: Intent, g: nat, env: Environment): seq<Step> {
    var id := intent.credential;
    if intent.target == Some(g) && env.databaseUp
      && FinalizeSet(s, intent, g, env.proof, env.approvalValid).Success? then
      [FinishStep(id, env)]
    else if intent.target != Some(g) && env.databaseUp && intent.operation == Replace
      && intent.expected == Some(g) then [Undo(id)]
    else if intent.target == Some(g) || (intent.operation == Replace && intent.expected == Some(g)) then
      [MarkStep(id, VaultUnavailable, env)]
    else [MarkStep(id, GenerationUnresolved, env)]
  }

  function DeleteSteps(intent: Intent, g: nat, env: Environment): seq<Step> {
    var id := intent.credential;
    if intent.expected == Some(g) then
      [CallVault(id, 0, env.deleteApplied, env.deleteReplied),
       if env.deleteApplied && env.deleteReplied && env.databaseUp then FinishStep(id, env)
       else MarkStep(id, GenerationUnresolved, env)]
    else [MarkStep(id, GenerationUnresolved, env)]
  }

  function RecoverySteps(s: State, intent: Intent, env: Environment): seq<Step> {
    [AskMetadata(intent.credential, env.vaultReachable)] +
    if !env.vaultReachable then [MarkStep(intent.credential, VaultUnavailable, env)] else
    match VaultMetadata(s.records, intent.locator, intent.credential)
    case Failure(e) =>
      if e.RecordNotFound? then AbsentSteps(intent, env) else [MarkStep(intent.credential, VaultUnavailable, env)]
    case Success(g) => if intent.SetsValue() then SetSteps(s, intent, g, env) else DeleteSteps(intent, g, env)
  }

  lemma {:induction false} RunFrom(sys: System, first: Step, rest: seq<Step>)
    ensures Run(sys, [first] + rest) == Run(Apply(sys, first), rest)
    decreases |rest|
  {
    var all := [first] + rest;
    if rest == [] {
      assert all == [first] && [first][..0] == [];
      assert Run(sys, [first]) == Apply(Run(sys, []), first);
    } else {
      var n := |rest| - 1;
      assert all[..|all| - 1] == [first] + rest[..n] && all[|all| - 1] == rest[n];
      RunFrom(sys, first, rest[..n]);
    }
  }

  lemma RunOne(sys: System, a: Step)
    ensures Run(sys, [a]) == Apply(sys, a)
  {
    RunFrom(sys, a, []);
    assert [a] + [] == [a];
  }

  lemma RunTwo(sys: System, a: Step, b: Step)
    ensures Run(sys, [a, b]) == Apply(Apply(sys, a), b)
  {
    RunFrom(sys, a, [b]);
    RunOne(Apply(sys, a), b);
    assert [a] + [b] == [a, b];
  }

  function Recovering(s: State, intent: Intent, knowledge: Knowledge): System {
    System(s, map[intent.credential := Executor(intent, Recovery, knowledge)])
  }

  lemma MarkIsARun(s: State, intent: Intent, k: Knowledge, category: Category, env: Environment)
    ensures Run(Recovering(s, intent, k), [MarkStep(intent.credential, category, env)]).state
            == Marked(s, intent, category, env).0
  {
    RunOne(Recovering(s, intent, k), MarkStep(intent.credential, category, env));
  }

  lemma AbsentIsARun(s: State, id: CredentialId, env: Environment)
    requires id in s.rows && id in s.intents && Tracked(s, id)
    ensures Run(Recovering(s, s.intents[id], RecordGone), AbsentSteps(s.intents[id], env)).state
            == RecoverAbsent(s, s.intents[id], env).0
  {
    var intent := s.intents[id];
    RunOne(Recovering(s, intent, RecordGone), AbsentSteps(intent, env)[0]);
  }

  lemma SetIsARun(s: State, id: CredentialId, g: nat, env: Environment)
    requires id in s.rows && id in s.intents && Tracked(s, id) && s.intents[id].SetsValue()
    ensures Run(Recovering(s, s.intents[id], AtGeneration(g)), SetSteps(s, s.intents[id], g, env)).state
         == RecoverSet(s, s.intents[id], g, env).0
  {
    var intent := s.intents[id];
    var sys, final := Recovering(s, intent, AtGeneration(g)), FinalizeSet(s, intent, g, env.proof, env.approvalValid);
    if intent.target == Some(g) && env.databaseUp && final.Success? {
      RunOne(sys, FinishStep(id, env));
    } else if intent.target != Some(g) && env.databaseUp && intent.operation == Replace && intent.expected == Some(g) {
      UndoIsARun(s, id, g);
    } else {
      var category := if intent.target == Some(g) || (intent.operation == Replace && intent.expected == Some(g))
                      then VaultUnavailable else GenerationUnresolved;
      MarkIsARun(s, intent, AtGeneration(g), category, env);
    }
  }

  lemma UndoIsARun(s: State, id: CredentialId, g: nat)
    requires id in s.rows && id in s.intents && Tracked(s, id)
    requires s.intents[id].operation == Replace && s.intents[id].expected == Some(g)
    ensures Rollback(s, s.intents[id]).Success?
    ensures Run(Recovering(s, s.intents[id], AtGeneration(g)), [Undo(id)]).state == Rollback(s, s.intents[id]).value
  {
    RunOne(Recovering(s, s.intents[id], AtGeneration(g)), Undo(id));
  }

  lemma DeleteCallStep(s: State, intent: Intent, g: nat, applied: bool, replied: bool)
    requires !intent.SetsValue() && intent.expected == Some(g) && Holds(s, intent.credential, intent.locator, g)
    ensures Apply(Recovering(s, intent, AtGeneration(g)), CallVault(intent.credential, 0, applied, replied))
         == Recovering(if applied then s.(records := s.records - {intent.locator}) else s, intent,
                       if applied && replied then RecordGone else Unknown)
  {
  }

  lemma FinishDeleteStep(s: State, intent: Intent, env: Environment)
    requires !intent.SetsValue() && FinalizeDelete(s, intent).Success? && env.databaseUp
    ensures Apply(Recovering(s, intent, RecordGone), FinishStep(intent.credential, env)).state
            == FinalizeDelete(s, intent).value
  {
  }

  lemma DeleteIsARun(s: State, id: CredentialId, g: nat, env: Environment)
    requires id in s.rows && id in s.intents && Tracked(s, id) && !s.intents[id].SetsValue()
    requires Holds(s, id, s.intents[id].locator, g)
    ensures Run(Recovering(s, s.intents[id], AtGeneration(g)), DeleteSteps(s.intents[id], g, env)).state
         == RecoverDelete(s, s.intents[id], g, env).0
  {
    var intent, steps := s.intents[id], DeleteSteps(s.intents[id], g, env);
    if intent.expected != Some(g) {
      MarkIsARun(s, intent, AtGeneration(g), GenerationUnresolved, env);
      return;
    }
    RunTwo(Recovering(s, intent, AtGeneration(g)), steps[0], steps[1]);
    DeleteCallStep(s, intent, g, env.deleteApplied, env.deleteReplied);
    var s1 := if env.deleteApplied then s.(records := s.records - {intent.locator}) else s;
    assert FinalizeDelete(s1, intent).Success?;
    if env.deleteApplied && env.deleteReplied && env.databaseUp {
      FinishDeleteStep(s1, intent, env);
    } else {
      var k := if env.deleteApplied && env.deleteReplied then RecordGone else Unknown;
      MarkIsARun(s1, intent, k, GenerationUnresolved, env);
      RunOne(Recovering(s1, intent, k), steps[1]);
    }
  }

  /** A recovery does nothing that the interleaved steps of the machine do not do. */
  lemma RecoveryIsARun(s: State, id: CredentialId, env: Environment)
    requires id in s.rows && id in s.intents && Tracked(s, id)
    ensures Run(Recovering(s, s.intents[id], Unknown), RecoverySteps(s, s.intents[id], env)).state
         == TryReconcile(s, s.intents[id], env).0
  {
    var intent := s.intents[id];
    var sys, ask := Recovering(s, intent, Unknown), AskMetadata(id, env.vaultReachable);
    var rest := RecoverySteps(s, intent, env)[1..];
    RunFrom(sys, ask, rest);
    var m := VaultMetadata(s.records, intent.locator, id);
    var knowledge := Apply(sys, ask).executors[id].knowledge;
    assert Apply(sys, ask) == Recovering(s, intent, knowledge);
    if !env.vaultReachable || (m.Failure? && !m.error.RecordNotFound?) {
      MarkIsARun(s, intent, knowledge, VaultUnavailable, env);
    } else if m.Failure? {
      AbsentIsARun(s, id, env);
    } else if intent.SetsValue() {
      SetIsARun(s, id, m.value, env);
    } else {
      DeleteIsARun(s, id, m.value, env);
    }
  }

  lemma RecoveringInv(s: State, id: CredentialId)
    requires RunInv(s) && id in s.intents
    ensures id in s.rows && Tracked(s, id) && s.intents[id].credential == id
    ensures SystemInv(Recovering(s, s.intents[id], Unknown))
  {
    assert Tracked(s, id);
  }

  lemma NoPickUps(sys: System, s: State, intent: Intent, env: Environment)
    ensures OwnKindRun(sys, RecoverySteps(s, intent, env), intent.credential)
  {
    assert forall i | 0 <= i < |RecoverySteps(s, intent, env)| :: !RecoverySteps(s, intent, env)[i].PickUp?;
  }

  lemma TouchesOnlyTransitive(s: State, t: State, u: State, id: CredentialId)
    requires TouchesOnly(s, t, id) && TouchesOnly(t, u, id)
    ensures TouchesOnly(s, u, id)
  {
    forall o | o in s.rows && o != id ensures o in u.rows && u.rows[o] == s.rows[o] { assert o in t.rows; }
    forall l | l in u.claims && l !in s.claims ensures u.claims[l] == id {
      if l in t.claims { assert t.claims[l] == id; }
    }
  }

  lemma {:induction false} RunTouchesOnly(sys: System, steps: seq<Step>, id: CredentialId)
    requires SystemInv(sys) && forall i | 0 <= i < |steps| :: steps[i].id == id
    ensures TouchesOnly(sys.state, Run(sys, steps).state, id)
    decreases |steps|
  {
    if steps != [] {
      var n := |steps| - 1;
      RunTouchesOnly(sys, steps[..n], id);
      EveryRunKeepsInv(sys, steps[..n]);
      StepTouchesOnly(Run(sys, steps[..n]), steps[n]);
      TouchesOnlyTransitive(sys.state, Run(sys, steps[..n]).state, Run(sys, steps).state, id);
    }
  }

  lemma RecoveryConcernsOne(s: State, intent: Intent, env: Environment)
    ensures forall i | 0 <= i < |RecoverySteps(s, intent, env)| ::
            RecoverySteps(s, intent, env)[i].id == intent.credential
  {
  }

  lemma RecoveryIsInRun(s: State, id: CredentialId, env: Environment)
    requires RunInv(s) && id in s.intents
    ensures var t := TryReconcile(s, s.intents[id], env).0; RunInv(t) && TouchesOnly(s, t, id)
  {
    RecoveringInv(s, id);
    var sys, steps := Recovering(s, s.intents[id], Unknown), RecoverySteps(s, s.intents[id], env);
    RecoveryIsARun(s, id, env);
    EveryRunKeepsInv(sys, steps);
    RecoveryConcernsOne(s, s.intents[id], env);
    RunTouchesOnly(sys, steps, id);
  }

  lemma RecoveryKeepsClear(s: State, id: CredentialId, env: Environment)
    requires Clear(s, id) && id in s.intents
    ensures Clear(TryReconcile(s, s.intents[id], env).0, id)
  {
    RecoveringInv(s, id);
    var sys, steps := Recovering(s, s.intents[id], Unknown), RecoverySteps(s, s.intents[id], env);
    RecoveryIsARun(s, id, env);
    NoPickUps(sys, s, s.intents[id], env);
    OwnKindKeepsClear(sys, steps, id);
  }

  /** Whatever fails during a recovery, it keeps what every run keeps, it touches no other credential, and
      it strands none. */
  lemma RecoveryKeepsInv(s: State, id: CredentialId, env: Environment)
    requires RunInv(s) && id in s.intents
    ensures var t := TryReconcile(s, s.intents[id], env).0;
            RunInv(t) && TouchesOnly(s, t, id) && (Clear(s, id) ==> Clear(t, id))
  {
    RecoveryIsInRun(s, id, env);
    if Clear(s, id) { RecoveryKeepsClear(s, id, env); }
  }

  // ---------- what a recovery achieves ----------

  // The vault already holds the value an approval-carrying intent asked for.
  predicate AwaitsApproval(s: State, intent: Intent) {
    && intent.approvalKey.Some? && intent.SetsValue()
    && intent.locator in s.records && intent.target == Some(s.records[intent.locator].generation)
  }

  function SettledRow(row: Row, intent: Intent, present: Option<nat>): Row {
    var done := row.(vaultState := Idle, version := row.version + 1);
    if !intent.SetsValue() then
      done.(status := if intent.operation == Archive then Archived else Unconfigured, locator := None,
            generation := None)
    else if present.Some? && present == intent.target then
      done.(status := if intent.priorStatus == Disabled then Disabled else Configured,
            locator := Some(intent.locator), generation := intent.target)
    else done
  }

  // What a recovery with everything reachable leaves behind for the credential of the intent.
  ghost predicate Settles(s: State, intent: Intent, env: Environment, r: (State, Outcome))
    requires intent.credential in s.rows && intent.credential in s.intents
  {
    var id := intent.credential;
    && r.1 != Threw
    && (r.1 == Reconciled <==> !AwaitsApproval(s, intent) || (env.proof && env.approvalValid))
    && (r.1 == Reconciled ==>
          && r.0.intents == s.intents - {id}
          && r.0.rows == s.rows[id := SettledRow(s.rows[id], intent,
               if intent.locator in s.records then Some(s.records[intent.locator].generation) else None)])
    && (r.1 == Unresolved ==>
          && r.0.intents == s.intents[id := intent.(phase := InReconcile, category := Some(VaultUnavailable))]
          && r.0.rows == s.rows[id := s.rows[id].(vaultState := Reconcile, version := s.rows[id].version + 1)])
    && (r.0.records == s.records || (!intent.SetsValue() && r.0.records == s.records - {intent.locator}))
  }

  lemma AbsentSettles(s: State, id: CredentialId, env: Environment)
    requires id in s.rows && id in s.intents && Consistent(s, id) && env.Reachable()
    requires s.intents[id].locator !in s.records
    ensures Settles(s, s.intents[id], env, RecoverAbsent(s, s.intents[id], env))
  {
  }

  lemma SetSettles(s: State, id: CredentialId, g: nat, env: Environment)
    requires id in s.rows && id in s.intents && Consistent(s, id) && env.Reachable()
    requires s.intents[id].SetsValue() && Holds(s, id, s.intents[id].locator, g)
    ensures Settles(s, s.intents[id], env, RecoverSet(s, s.intents[id], g, env))
  {
  }

  lemma DeleteSettles(s: State, id: CredentialId, g: nat, env: Environment)
    requires id in s.rows && id in s.intents && Consistent(s, id) && env.Reachable()
    requires !s.intents[id].SetsValue() && Holds(s, id, s.intents[id].locator, g)
    ensures Settles(s, s.intents[id], env, RecoverDelete(s, s.intents[id], g, env))
  {
  }

  /** With the vault and the database reachable one pass settles the credential, unless its intent
      carries an approval the caller cannot back: it ends idle with the requested effect if the
      vault holds the target value, and with exactly its prior row otherwise; a delete completes. */
  lemma RecoverySettles(s: State, id: CredentialId, env: Environment)
    requires id in s.rows && id in s.intents && Consistent(s, id) && env.Reachable()
    ensures s.intents[id].credential == id
    ensures Settles(s, s.intents[id], env, TryReconcile(s, s.intents[id], env))
  {
    var intent := s.intents[id];
    if intent.locator !in s.records {
      AbsentSettles(s, id, env);
    } else if intent.SetsValue() {
      SetSettles(s, id, s.records[intent.locator].generation, env);
    } else {
      DeleteSettles(s, id, s.records[intent.locator].generation, env);
    }
  }

  /** No recovery settles a stranded credential, whatever the stores offer. */
  lemma StrandedStaysStranded(s: State, id: CredentialId, env: Environment)
    requires Stranded(s, id)
    ensures TryReconcile(s, s.intents[id], env).1 == Unresolved && Stranded(TryReconcile(s, s.intents[id], env).0, id)
  {
  }

  // What a recovery with everything reachable leaves pending, if nobody proves an approval.
  predicate Stuck(s: State, intent: Intent) { AwaitsApproval(s, intent) || Stranded(s, intent.credential) }

  /** After any run from the empty stores, whatever its replays resumed, one recovery with everything
      reachable settles a pending credential without an approval exactly when it is not stranded. */
  lemma RecoverySettlesIff(steps: seq<Step>, id: CredentialId, env: Environment)
    requires env.Reachable() && id in Run(START, steps).state.intents
    requires Run(START, steps).state.intents[id].approvalKey.None?
    ensures var s := Run(START, steps).state;
            var r := TryReconcile(s, s.intents[id], env);
            && id in s.rows && s.intents[id].credential == id
            && (r.1 == Reconciled <==> !Stranded(s, id))
            && (if Stranded(s, id) then r.1 == Unresolved && Stranded(r.0, id) else Settles(s, s.intents[id], env, r))
  {
    EveryRunKeepsInv(START, steps);
    var s := Run(START, steps).state;
    RecoveringInv(s, id);
    ConsistentIffNotStranded(s, id);
    if Stranded(s, id) { StrandedStaysStranded(s, id, env); } else { RecoverySettles(s, id, env); }
  }

  /** A vault that obeys its contract is never the reason for an unresolved outcome: the absence of a
      prior record is never recorded, and a generation stays unresolved only when the recovery's own
      delete, or the transaction after it, failed. */
  lemma VaultIsNeverToBlame(s: State, id: CredentialId, env: Environment)
    requires id in s.rows && id in s.intents && Consistent(s, id)
    ensures var t := TryReconcile(s, s.intents[id], env).0;
            id in t.intents && t.intents[id].category != s.intents[id].category ==>
              && t.intents[id].category != Some(PriorRecordAbsent)
              && (t.intents[id].category == Some(GenerationUnresolved) ==>
                    !s.intents[id].SetsValue() && !(env.deleteApplied && env.deleteReplied && env.databaseUp))
  {
    var intent := s.intents[id];
    if intent.locator !in s.records {
      AbsentIsNotBlamed(s, id, env);
    } else if intent.SetsValue() {
      SetIsNotBlamed(s, id, s.records[intent.locator].generation, env);
    } else {
      DeleteIsNotBlamed(s, id, s.records[intent.locator].generation, env);
    }
  }

  lemma AbsentIsNotBlamed(s: State, id: CredentialId, env: Environment)
    requires id in s.rows && id in s.intents && Consistent(s, id) && s.intents[id].locator !in s.records
    ensures var t := RecoverAbsent(s, s.intents[id], env).0; id in t.intents ==> t.intents[id] == s.intents[id]
  {
  }

  lemma SetIsNotBlamed(s: State, id: CredentialId, g: nat, env: Environment)
    requires id in s.rows && id in s.intents && Consistent(s, id) && s.intents[id].SetsValue()
    requires Holds(s, id, s.intents[id].locator, g)
    ensures var t := RecoverSet(s, s.intents[id], g, env).0;
            id in t.intents && t.intents[id].category != s.intents[id].category ==>
                t.intents[id].category == Some(VaultUnavailable)
  {
  }

  lemma DeleteIsNotBlamed(s: State, id: CredentialId, g: nat, env: Environment)
    requires id in s.rows && id in s.intents && Consistent(s, id) && !s.intents[id].SetsValue()
    requires Holds(s, id, s.intents[id].locator, g)
    ensures var t := RecoverDelete(s, s.intents[id], g, env).0;
            id in t.intents && t.intents[id].category != s.intents[id].category ==>
              && t.intents[id].category == Some(GenerationUnresolved)
              && !(env.deleteApplied && env.deleteReplied && env.databaseUp)
  {
  }

  // ---------- one pass over all pending intents ----------

  datatype Pass = Pass(state: State, reconciled: nat, threw: bool)

  // reconcilePending offers no step-up proof.
  function WithoutProof(env: Environment): Environment { env.(proof := false) }

  function ReconcileAll(s: State, batch: seq<Intent>, envs: CredentialId -> Environment): Pass {
    if batch == [] then Pass(s, 0, false) else
    var before := ReconcileAll(s, batch[..|batch| - 1], envs);
    if before.threw then before else
    var last := batch[|batch| - 1];
    var r := TryReconcile(before.state, last, WithoutProof(envs(last.credential)));
    Pass(r.0, before.reconciled + if r.1 == Reconciled then 1 else 0, r.1 == Threw)
  }

  // The batch is the stored intents in some order, each once.
  ghost predicate IsBatch(s: State, batch: seq<Intent>) {
    && (forall i | 0 <= i < |batch| :: batch[i].credential in s.intents && batch[i] == s.intents[batch[i].credential])
    && (forall i, j | 0 <= i < j < |batch| :: batch[i].credential != batch[j].credential)
  }

  function StuckCount(s: State, batch: seq<Intent>): nat {
    if batch == [] then 0
    else StuckCount(s, batch[..|batch| - 1]) + if Stuck(s, batch[|batch| - 1]) then 1 else 0
  }

  // The row a recovery of the intent leaves when it settles it.
  function Settled(s: State, intent: Intent): Row
    requires intent.credential in s.rows
  {
    SettledRow(s.rows[intent.credential], intent,
               if intent.locator in s.records then Some(s.records[intent.locator].generation) else None)
  }

  // A pending credential, and its record, are as they were.
  predicate SamePending(s: State, t: State, id: CredentialId) {
    && id in s.intents && id in t.intents && t.intents[id] == s.intents[id]
    && id in s.rows && id in t.rows && t.rows[id] == s.rows[id]
    && var l := s.intents[id].locator;
       (l in s.records <==> l in t.records) && (l in s.records ==> t.records[l] == s.records[l])
  }

  // Recovering one credential changes nothing for another.
  lemma OtherStaysPending(s: State, t: State, id: CredentialId, o: CredentialId)
    requires RunInv(s) && TouchesOnly(s, t, id) && o in s.intents && o != id
    ensures SamePending(s, t, o)
  {
    assert Tracked(s, o) && CurrentLocator(s, o) == Some(s.intents[o].locator);
    OthersStay(s, t, id, o);
    assert o in s.intents - {id} && o in t.intents - {id};
    assert t.intents[o] == (t.intents - {id})[o] == (s.intents - {id})[o] == s.intents[o];
  }

  // What one recovery with everything reachable but no proof does to its own credential.
  ghost predicate Ends(s: State, intent: Intent, r: (State, Outcome))
    requires intent.credential in s.rows
  {
    var id := intent.credential;
    && r.1 != Threw && (r.1 == Reconciled <==> !Stuck(s, intent)) && id in r.0.rows
    && (id in r.0.intents <==> Stuck(s, intent))
    && (!Stuck(s, intent) ==> r.0.rows[id] == Settled(s, intent))
  }

  lemma RecoverOne(s: State, id: CredentialId, env: Environment)
    requires RunInv(s) && id in s.intents && env.Reachable() && !env.proof
    ensures id in s.rows && s.intents[id].credential == id
    ensures var r := TryReconcile(s, s.intents[id], env);
            RunInv(r.0) && TouchesOnly(s, r.0, id) && Ends(s, s.intents[id], r)
  {
    RecoveringInv(s, id);
    RecoveryKeepsInv(s, id, env);
    ConsistentIffNotStranded(s, id);
    if Stranded(s, id) { StrandedStaysStranded(s, id, env); } else { RecoverySettles(s, id, env); }
  }

  predicate InBatch(batch: seq<Intent>, id: CredentialId) { exists i | 0 <= i < |batch| :: batch[i].credential == id }

  // After the pass over `batch` its credentials are settled, but for the stuck ones; the others are as
  // they were.
  ghost predicate Swept(s: State, batch: seq<Intent>, p: Pass) {
    && !p.threw
    && p.reconciled + StuckCount(s, batch) == |batch|
    && BatchSwept(s, batch, p.state)
    && OutsideKept(s, batch, p.state)
    && p.state.intents.Keys <= s.intents.Keys
  }

  ghost predicate OutsideKept(s: State, batch: seq<Intent>, t: State) {
    forall o | o in s.intents && !InBatch(batch, o) :: SamePending(s, t, o)
  }

  lemma NextIsPending(s: State, batch: seq<Intent>, p: Pass, last: Intent)
    requires IsBatch(s, batch + [last]) && Swept(s, batch, p)
    ensures !InBatch(batch, last.credential)
    ensures SamePending(s, p.state, last.credential) && s.intents[last.credential] == last
  {
    var all := batch + [last];
    assert all[|batch|] == last;
    assert forall i | 0 <= i < |batch| :: all[i] == batch[i];
  }

  lemma OthersKept(s: State, t: State, id: CredentialId, o: CredentialId)
    requires TouchesOnly(s, t, id) && o != id && o in s.rows
    ensures o in t.rows && t.rows[o] == s.rows[o] && (o in t.intents <==> o in s.intents)
  {
    assert o in t.intents <==> o in t.intents - {id};
    assert o in s.intents <==> o in s.intents - {id};
  }

  ghost predicate BatchSwept(s: State, batch: seq<Intent>, t: State) {
    forall i | 0 <= i < |batch| :: Done(s, batch[i], t)
  }

  // A credential of the batch is settled, or stuck and still pending.
  ghost predicate Done(s: State, intent: Intent, t: State) {
    && intent.credential in s.rows && intent.credential in t.rows
    && (intent.credential in t.intents <==> Stuck(s, intent))
    && (!Stuck(s, intent) ==> t.rows[intent.credential] == Settled(s, intent))
  }

  lemma BatchExtends(s: State, batch: seq<Intent>, p: State, last: Intent, r: (State, Outcome))
    requires BatchSwept(s, batch, p) && !InBatch(batch, last.credential)
    requires SamePending(s, p, last.credential) && s.intents[last.credential] == last
    requires TouchesOnly(p, r.0, last.credential) && Ends(p, last, r)
    ensures BatchSwept(s, batch + [last], r.0)
  {
    var all, t, id := batch + [last], r.0, last.credential;
    forall i | 0 <= i < |all| ensures Done(s, all[i], t) {
      if i < |batch| {
        assert all[i] == batch[i] && Done(s, batch[i], p);
        OthersKept(p, t, id, all[i].credential);
      } else {
        assert all[i] == last && Stuck(p, last) == Stuck(s, last) && Settled(p, last) == Settled(s, last);
      }
    }
  }

  lemma OutsideExtends(s: State, batch: seq<Intent>, p: State, last: Intent, t: State)
    requires RunInv(p) && TouchesOnly(p, t, last.credential) && OutsideKept(s, batch, p)
    ensures OutsideKept(s, batch + [last], t)
  {
    var all := batch + [last];
    assert all[|batch|] == last;
    forall o | o in s.intents && !InBatch(all, o) ensures SamePending(s, t, o) {
      forall i | 0 <= i < |batch| ensures batch[i].credential != o { assert all[i] == batch[i]; }
      assert SamePending(s, p, o) && o != last.credential;
      OtherStaysPending(p, t, last.credential, o);
    }
  }

  lemma NoNewIntents(s: State, t: State, id: CredentialId)
    requires TouchesOnly(s, t, id) && id in s.intents
    ensures t.intents.Keys <= s.intents.Keys
  {
    forall o | o in t.intents ensures o in s.intents {
      if o != id { assert o in t.intents - {id} && o in s.intents - {id}; }
    }
  }

  lemma SweptExtends(s: State, batch: seq<Intent>, p: Pass, last: Intent, r: (State, Outcome))
    requires Swept(s, batch, p) && RunInv(p.state) && !InBatch(batch, last.credential)
    requires SamePending(s, p.state, last.credential) && s.intents[last.credential] == last
    requires TouchesOnly(p.state, r.0, last.credential) && last.credential in p.state.rows && Ends(p.state, last, r)
    ensures Swept(s, batch + [last], Pass(r.0, p.reconciled + if r.1 == Reconciled then 1 else 0, r.1 == Threw))
  {
    var all := batch + [last];
    assert all[|batch|] == last && all[..|batch|] == batch;
    BatchExtends(s, batch, p.state, last, r);
    OutsideExtends(s, batch, p.state, last, r.0);
    NoNewIntents(p.state, r.0, last.credential);
    assert Stuck(p.state, last) == Stuck(s, last);
  }

  /** One pass over a batch with everything reachable, whatever runs came before: it never throws, every
      credential of the batch is settled except those that are stranded or whose stored value awaits an
      approval, credentials outside it are untouched, and the reported count is exactly the number
      settled. One stranded credential does not hold up another. */
  lemma {:induction false} PassSettlesBatch(s: State, batch: seq<Intent>, envs: CredentialId -> Environment)
    requires RunInv(s) && IsBatch(s, batch)
    requires forall id :: envs(id).Reachable()
    ensures RunInv(ReconcileAll(s, batch, envs).state) && Swept(s, batch, ReconcileAll(s, batch, envs))
    decreases |batch|
  {
    if batch != [] {
      var init, last := batch[..|batch| - 1], batch[|batch| - 1];
      assert init + [last] == batch;
      assert IsBatch(s, init) by { assert forall i | 0 <= i < |init| :: init[i] == batch[i]; }
      PassSettlesBatch(s, init, envs);
      var p, env := ReconcileAll(s, init, envs), WithoutProof(envs(last.credential));
      NextIsPending(s, init, p, last);
      RecoverOne(p.state, last.credential, env);
      SweptExtends(s, init, p, last, TryReconcile(p.state, last, env));
    } else {
      forall o | o in s.intents ensures SamePending(s, s, o) { assert o in s.rows; }
    }
  }

  function StrandedIds(s: State): set<CredentialId> { set id | id in s.intents && Stranded(s, id) }

  predicate Covers(batch: seq<Intent>, s: State) { forall id | id in s.intents :: InBatch(batch, id) }

  /** Up to 1000 pending intents without approvals: one pass leaves exactly those of the stranded
      credentials, and none if no credential is stranded. */
  lemma PassLeavesNone(s: State, batch: seq<Intent>, envs: CredentialId -> Environment)
    requires RunInv(s) && IsBatch(s, batch) && (forall id :: envs(id).Reachable())
    requires Covers(batch, s) && forall id | id in s.intents :: s.intents[id].approvalKey.None?
    ensures var p := ReconcileAll(s, batch, envs);
            && !p.threw && p.state.intents.Keys == StrandedIds(s)
            && (StrandedIds(s) == {} ==> p.state.intents == map[] && p.reconciled == |batch|)
  {
    PassSettlesBatch(s, batch, envs);
    var p := ReconcileAll(s, batch, envs);
    forall id | id in s.intents ensures id in p.state.intents <==> Stranded(s, id) {
      var i :| 0 <= i < |batch| && batch[i].credential == id;
      assert batch[i] == s.intents[id] && Done(s, batch[i], p.state);
    }
    assert p.state.intents.Keys == StrandedIds(s);
    if StrandedIds(s) == {} {
      forall i | 0 <= i < |batch| ensures !Stuck(s, batch[i]) { assert batch[i].credential !in StrandedIds(s); }
      NoneStuck(s, batch);
    }
  }

  lemma {:induction false} NoneStuck(s: State, batch: seq<Intent>)
    requires forall i | 0 <= i < |batch| :: !Stuck(s, batch[i])
    ensures StuckCount(s, batch) == 0
    decreases |batch|
  {
    if batch != [] { NoneStuck(s, batch[..|batch| - 1]); }
  }

  // ---------- a replay that resumes an intent of the other kind ----------

  function AfterSetCall(s: State, intent: Intent, secret: Secret): State {
    var r := SetCall(s.records, intent, secret);
    if r.Success? then s.(records := r.value) else s
  }

  function AfterDeleteCall(s: State, intent: Intent): State {
    var r := DeleteCall(s.records, intent);
    if r.Success? then s.(records := r.value) else s
  }

  // One executor of the stored intent, as a replay or a first call makes it.
  function Taken(s: State, id: CredentialId, caller: Caller, knowledge: Knowledge): System
    requires id in s.intents
  {
    System(s, map[id := Executor(s.intents[id], caller, knowledge)])
  }

  lemma TakenInv(s: State, id: CredentialId, caller: Caller, knowledge: Knowledge)
    requires RunInv(s) && id in s.intents && Truthful(s, Executor(s.intents[id], caller, knowledge))
    ensures SystemInv(Taken(s, id, caller, knowledge)) && id in s.rows && Tracked(s, id)
            && s.intents[id].credential == id
  {
    assert Tracked(s, id);
    assert ExecutorInv(s, id, Executor(s.intents[id], caller, knowledge));
  }

  lemma CallIsAStep(s: State, id: CredentialId, secret: Secret)
    requires id in s.intents
    ensures Apply(Taken(s, id, SetCaller, Unknown), CallVault(id, secret, true, true)).state
            == AfterSetCall(s, s.intents[id], secret)
    ensures Apply(Taken(s, id, DeleteCaller, Unknown), CallVault(id, secret, true, true)).state
            == AfterDeleteCall(s, s.intents[id])
  {
  }

  // A set call keeps the credential consistent exactly when its intent sets a value or there is no record
  // left to overwrite.
  lemma SetCallKeepsClearIff(s: State, id: CredentialId, secret: Secret)
    requires Clear(s, id) && id in s.intents
    ensures RunInv(AfterSetCall(s, s.intents[id], secret))
    ensures Clear(AfterSetCall(s, s.intents[id], secret), id) <==>
              s.intents[id].SetsValue() || s.intents[id].locator !in s.records
  {
    TakenInv(s, id, SetCaller, Unknown);
    ClearAfterStepIff(Taken(s, id, SetCaller, Unknown), CallVault(id, secret, true, true), id);
    CallIsAStep(s, id, secret);
    assert PendingConsistent(s, id);
  }

  // A delete call keeps it consistent exactly when it does not destroy the record a pending replace
  // still needs.
  lemma DeleteCallKeepsClearIff(s: State, id: CredentialId)
    requires Clear(s, id) && id in s.intents
    ensures RunInv(AfterDeleteCall(s, s.intents[id]))
    ensures Clear(AfterDeleteCall(s, s.intents[id]), id) <==>
            !(s.intents[id].operation == Replace && Holds(s, id, s.intents[id].locator, s.intents[id].expected.value))
  {
    TakenInv(s, id, DeleteCaller, Unknown);
    ClearAfterStepIff(Taken(s, id, DeleteCaller, Unknown), CallVault(id, 0, true, true), id);
    CallIsAStep(s, id, 0);
    assert PendingConsistent(s, id);
  }

  // setValue succeeds, deleteValue prepares and crashes, and a retry of the same setValue is replayed.
  const CONFUSED_REPLAY: seq<Step> :=
    [AddCredential(0), BeginSet(0, 1, 7, None), CallVault(0, 5, true, true), Finalize(0, false, false),
     BeginDelete(0, 3, false), Crash(0), PickUp(0, SetCaller), CallVault(0, 5, true, true)]

  const AFTER_SET: State :=
    State(map[0 := Row(Configured, Idle, Some(7), Some(1), 1, 3)], map[], map[],
          [Event(0, 1, ValueReplace)], map[7 := Record(0, 1, 5)], map[7 := 0], {0})

  const CREATING: State :=
    EMPTY.(rows := map[0 := Row(Unconfigured, PendingCreate, None, None, 1, 2)],
           intents := map[0 := Intent(0, Create, 7, None, Some(1), Unconfigured, Prepared, None, None)],
           events := [Event(0, 1, ValueReplace)], claims := map[7 := 0], everAdded := {0})

  lemma CreateIsPrepared()
    ensures Apply(Apply(START, CONFUSED_REPLAY[0]), CONFUSED_REPLAY[1])
         == System(CREATING, map[0 := Executor(CREATING.intents[0], SetCaller, Unknown)])
  {
    var s1 := Apply(START, AddCredential(0));
    assert s1.state.rows == map[0 := Row(Unconfigured, Idle, None, None, 0, 1)];
    assert s1.state == EMPTY.(rows := s1.state.rows, everAdded := {0});
    var s2 := Apply(s1, BeginSet(0, 1, 7, None));
    assert s2.state.rows == CREATING.rows && s2.state.intents == CREATING.intents;
    assert s2.state.events == CREATING.events && s2.state.claims == CREATING.claims;
  }

  lemma CreateIsFinalized()
    ensures var s2 := System(CREATING, map[0 := Executor(CREATING.intents[0], SetCaller, Unknown)]);
            Apply(Apply(s2, CONFUSED_REPLAY[2]), CONFUSED_REPLAY[3]) == System(AFTER_SET, map[])
  {
    var s2 := System(CREATING, map[0 := Executor(CREATING.intents[0], SetCaller, Unknown)]);
    var s3 := Apply(s2, CallVault(0, 5, true, true));
    assert s3.state == CREATING.(records := map[7 := Record(0, 1, 5)]);
    assert s3.executors == map[0 := Executor(CREATING.intents[0], SetCaller, AtGeneration(1))];
    var s4 := Apply(s3, Finalize(0, false, false));
    assert s4.state.intents == map[] && s4.state.approvals == map[] && s4.executors == map[];
    assert s4.state.rows == AFTER_SET.rows && s4.state.events == AFTER_SET.events;
  }

  lemma FirstValueIsSet()
    ensures Run(START, CONFUSED_REPLAY[..4]) == System(AFTER_SET, map[])
  {
    var c := CONFUSED_REPLAY;
    assert c[..4] == [c[0]] + ([c[1]] + [c[2], c[3]]);
    RunFrom(START, c[0], [c[1]] + [c[2], c[3]]);
    RunFrom(Apply(START, c[0]), c[1], [c[2], c[3]]);
    CreateIsPrepared();
    RunTwo(Apply(Apply(START, c[0]), c[1]), c[2], c[3]);
    CreateIsFinalized();
  }

  const DELETE_INTENT: Intent := Intent(0, DeleteValue, 7, Some(1), None, Configured, Prepared, None, None)

  const PENDING_DELETE: State :=
    AFTER_SET.(rows := map[0 := Row(Configured, PendingDelete, Some(7), Some(1), 2, 4)],
               intents := map[0 := DELETE_INTENT],
               events := [Event(0, 1, ValueReplace), Event(0, 2, ValueDelete)])

  lemma DeleteIsPreparedAndCrashes()
    ensures Apply(Apply(System(AFTER_SET, map[]), CONFUSED_REPLAY[4]), CONFUSED_REPLAY[5])
            == System(PENDING_DELETE, map[])
  {
    var s5 := Apply(System(AFTER_SET, map[]), BeginDelete(0, 3, false));
    assert s5.state.intents == PENDING_DELETE.intents;
    assert s5.state.rows == PENDING_DELETE.rows;
    assert Apply(s5, Crash(0)).executors == map[];
  }

  lemma ReplayOverwrites()
    ensures Stranded(Apply(Apply(System(PENDING_DELETE, map[]), CONFUSED_REPLAY[6]), CONFUSED_REPLAY[7]).state, 0)
  {
    var s7 := Apply(System(PENDING_DELETE, map[]), PickUp(0, SetCaller));
    assert s7.executors[0] == Executor(DELETE_INTENT, SetCaller, Unknown);
    assert SetCall(s7.state.records, DELETE_INTENT, 5) == Success(s7.state.records[7 := Record(0, 2, 5)]);
  }

  lemma ReplayAfterDelete()
    ensures Stranded(Run(System(AFTER_SET, map[]), CONFUSED_REPLAY[4..]).state, 0)
  {
    var c, s4 := CONFUSED_REPLAY, System(AFTER_SET, map[]);
    assert c[4..] == [c[4]] + ([c[5]] + [c[6], c[7]]);
    RunFrom(s4, c[4], [c[5]] + [c[6], c[7]]);
    RunFrom(Apply(s4, c[4]), c[5], [c[6], c[7]]);
    DeleteIsPreparedAndCrashes();
    RunTwo(System(PENDING_DELETE, map[]), c[6], c[7]);
    ReplayOverwrites();
  }

  lemma {:induction false} RunAppend(sys: System, a: seq<Step>, b: seq<Step>)
    ensures Run(sys, a + b) == Run(Run(sys, a), b)
    decreases |b|
  {
    if b == [] {
      assert a + b == a;
    } else {
      var n := |b| - 1;
      assert (a + b)[..|a + b| - 1] == a + b[..n];
      RunAppend(sys, a, b[..n]);
    }
  }

  /** The unrestricted machine reaches a credential that no recovery can ever settle. */
  lemma ConfusedReplayStrands(env: Environment)
    ensures Stranded(Run(START, CONFUSED_REPLAY).state, 0)
    ensures TryReconcile(Run(START, CONFUSED_REPLAY).state, Run(START, CONFUSED_REPLAY).state.intents[0], env).1
            == Unresolved
  {
    FirstValueIsSet();
    ReplayAfterDelete();
    assert CONFUSED_REPLAY == CONFUSED_REPLAY[..4] + CONFUSED_REPLAY[4..];
    RunAppend(START, CONFUSED_REPLAY[..4], CONFUSED_REPLAY[4..]);
    StrandedStaysStranded(Run(START, CONFUSED_REPLAY).state, 0, env);
  }
}
