/** The coordinator as a step machine. Each stretch between two awaits is one step, so executors
    of different credentials, lifecycle mutators, crashes and lost replies interleave freely; per
    intent there is at most one executor at a time. A step whose guard fails changes nothing. */
module CredentialProtocol {
  import opened Common
  import opened CredentialState

  // Who runs the intent: setValue (first call or idempotent replay), deleteValue, or recovery.
  datatype Caller = SetCaller | DeleteCaller | Recovery

  // What the vault's last reply told the executor.
  datatype Knowledge = Unknown | AtGeneration(generation: nat) | RecordGone

  datatype Executor = Executor(intent: Intent, caller: Caller, knowledge: Knowledge)

  datatype System = System(state: State, executors: map<CredentialId, Executor>)

  datatype Step =
    | AddCredential(id: CredentialId)
    | EditProfile(id: CredentialId, version: nat)
    | EditAssignments(id: CredentialId, version: nat)
    | DisableCredential(id: CredentialId, version: nat)
    | EnableCredential(id: CredentialId, version: nat, observed: nat)
    | ArchiveEmpty(id: CredentialId, version: nat)
    | DeleteRow(id: CredentialId, version: nat)
    | BeginSet(id: CredentialId, version: nat, freshLocator: Locator, approvalKey: Option<nat>)
    | BeginDelete(id: CredentialId, version: nat, archive: bool)
    | PickUp(id: CredentialId, caller: Caller)
    | CallVault(id: CredentialId, secret: Secret, applied: bool, replied: bool)
    | AskMetadata(id: CredentialId, reachable: bool)
    | Finalize(id: CredentialId, proof: bool, approvalValid: bool)
    | Undo(id: CredentialId)
    | Mark(id: CredentialId, category: Category)
    | Crash(id: CredentialId)

  // An aborted transaction leaves the state as it was.
  function Commit(s: State, r: Result<State, DbError>): State {
    if r.Success? then r.value else s
  }

  function SetCall(records: map<Locator, Record>, intent: Intent, secret: Secret)
    : Result<map<Locator, Record>, VaultError>
  {
    if intent.operation == Create then VaultCreate(records, intent.locator, intent.credential, secret)
    else VaultReplace(records, intent.locator, intent.expected, intent.credential, secret)
  }

  function DeleteCall(records: map<Locator, Record>, intent: Intent): Result<map<Locator, Record>, VaultError> {
    VaultDelete(records, intent.locator, intent.expected, intent.credential)
  }

  predicate MayCall(e: Executor) {
    e.caller.Recovery? ==>
      !e.intent.SetsValue() && e.knowledge.AtGeneration? && e.intent.expected == Some(e.knowledge.generation)
  }

  predicate MayFinalizeSet(e: Executor) {
    && e.knowledge.AtGeneration? && e.intent.target == Some(e.knowledge.generation)
    && (e.caller.SetCaller? || (e.caller.Recovery? && e.intent.SetsValue()))
  }

  predicate MayFinalizeDelete(e: Executor) {
    e.knowledge.RecordGone? && (e.caller.DeleteCaller? || (e.caller.Recovery? && !e.intent.SetsValue()))
  }

  predicate MayUndo(e: Executor) {
    && e.caller.Recovery?
    && ((e.intent.operation.Create? && e.knowledge.RecordGone?)
        || (e.intent.operation.Replace? && e.knowledge.AtGeneration?
            && e.intent.expected == Some(e.knowledge.generation)))
  }

  // A vault call may take effect without its reply arriving; a failed call has its full effect or none.
  function Call(sys: System, id: CredentialId, secret: Secret, applied: bool, replied: bool): System
    requires id in sys.executors
  {
    var e := sys.executors[id];
    var asSetter := e.caller.SetCaller?;
    var r := if asSetter then SetCall(sys.state.records, e.intent, secret) else DeleteCall(sys.state.records, e.intent);
    var records := if r.Success? && applied then r.value else sys.state.records;
    var knowledge :=
      if r.Failure? || !applied || !replied then Unknown
      else if !asSetter || e.intent.locator !in records then RecordGone
      else AtGeneration(records[e.intent.locator].generation);
    var caller := if knowledge.Unknown? then Recovery else e.caller;
    System(sys.state.(records := records), sys.executors[id := e.(caller := caller, knowledge := knowledge)])
  }

  function Ask(sys: System, id: CredentialId, reachable: bool): System
    requires id in sys.executors
  {
    var e := sys.executors[id];
    var m := VaultMetadata(sys.state.records, e.intent.locator, e.intent.credential);
    var knowledge :=
      if !reachable then Unknown
      else match m
           case Success(g) => AtGeneration(g)
           case Failure(err) => if err.RecordNotFound? then RecordGone else Unknown;
    sys.(executors := sys.executors[id := e.(caller := Recovery, knowledge := knowledge)])
  }

  // A transaction of an executor: on commit the executor is done, on abort it falls back to recovery.
  function Conclude(sys: System, id: CredentialId, r: Result<State, DbError>): System
    requires id in sys.executors
  {
    if r.Success? then System(r.value, sys.executors - {id})
    else sys.(executors := sys.executors[id := sys.executors[id].(caller := Recovery, knowledge := Unknown)])
  }

  function Begin(sys: System, id: CredentialId, r: Result<State, DbError>, caller: Caller): System {
    if r.Success? && id in r.value.intents
    then System(r.value, sys.executors[id := Executor(r.value.intents[id], caller, Unknown)])
    else sys
  }

  function Apply(sys: System, step: Step): System {
    var s := sys.state;
    match step
    case AddCredential(id) => sys.(state := Commit(s, Add(s, id)))
    case EditProfile(id, v) => sys.(state := Commit(s, UpdateProfile(s, id, v)))
    case EditAssignments(id, v) => sys.(state := Commit(s, ReplaceAssignments(s, id, v)))
    case DisableCredential(id, v) => sys.(state := Commit(s, Disable(s, id, v)))
    case EnableCredential(id, v, g) => sys.(state := Commit(s, Enable(s, id, v, g)))
    case ArchiveEmpty(id, v) => sys.(state := Commit(s, ArchiveUnconfigured(s, id, v)))
    case DeleteRow(id, v) => sys.(state := Commit(s, DeleteArchived(s, id, v)))
    case BeginSet(id, v, l, key) =>
      if l in s.claims then sys else Begin(sys, id, PrepareSet(s, id, v, l, key), SetCaller)
    case BeginDelete(id, v, archive) => Begin(sys, id, PrepareDelete(s, id, v, archive), DeleteCaller)
    case PickUp(id, caller) =>
      if id in s.intents && id !in sys.executors
      then sys.(executors := sys.executors[id := Executor(s.intents[id], caller, Unknown)]) else sys
    case CallVault(id, secret, applied, replied) =>
      if id in sys.executors && MayCall(sys.executors[id]) then Call(sys, id, secret, applied, replied) else sys
    case AskMetadata(id, reachable) =>
      if id in sys.executors then Ask(sys, id, reachable) else sys
    case Finalize(id, proof, approvalValid) =>
      if id !in sys.executors then sys
      else if MayFinalizeSet(sys.executors[id])
      then Conclude(sys, id,
                    FinalizeSet(s, sys.executors[id].intent, sys.executors[id].knowledge.generation, proof,
                                approvalValid))
      else if MayFinalizeDelete(sys.executors[id]) then Conclude(sys, id, FinalizeDelete(s, sys.executors[id].intent))
      else sys
    case Undo(id) =>
      if id in sys.executors && MayUndo(sys.executors[id])
      then Conclude(sys, id, Rollback(s, sys.executors[id].intent)) else sys
    case Mark(id, category) =>
      if id in sys.executors
      then System(MarkReconcile(s, sys.executors[id].intent, category), sys.executors - {id}) else sys
    case Crash(id) => sys.(executors := sys.executors - {id})
  }

  const EMPTY: State := State(map[], map[], map[], [], map[], map[], {})

  const START: System := System(EMPTY, map[])

  // A replayed request resumes an intent of its own kind.
  predicate OwnKind(sys: System, step: Step) {
    step.PickUp? && step.id in sys.state.intents && step.id !in sys.executors ==>
      match step.caller
      case SetCaller => sys.state.intents[step.id].SetsValue()
      case DeleteCaller => !sys.state.intents[step.id].SetsValue()
      case Recovery => true
  }

  function Run(sys: System, steps: seq<Step>): System
    decreases |steps|
  {
    if steps == [] then sys else Apply(Run(sys, steps[..|steps| - 1]), steps[|steps| - 1])
  }

  // The replays of this credential resume intents of their own kind.
  ghost predicate OwnKindRun(sys: System, steps: seq<Step>, id: CredentialId) {
    forall i | 0 <= i < |steps| && steps[i].id == id :: OwnKind(Run(sys, steps[..i]), steps[i])
  }

  // ---------- what every step keeps ----------

  // The record an idle credential names is exactly the one it holds.
  predicate Holds(s: State, id: CredentialId, l: Locator, g: nat) {
    l in s.records && s.records[l].owner == id && s.records[l].generation == g
  }

  predicate IdleConsistent(s: State, id: CredentialId)
    requires id in s.rows
  {
    var row := s.rows[id];
    match row.status
    case Unconfigured => row.locator.None? && row.generation.None?
    case Archived => row.locator.None? && row.generation.None?
    case _ => row.locator.Some? && row.generation.Some? && Holds(s, id, row.locator.value, row.generation.value)
  }

  function PendingStateOf(op: Operation): VaultState {
    match op
    case Create => PendingCreate
    case Replace => PendingReplace
    case DeleteValue => PendingDelete
    case Archive => PendingArchive
  }

  // A pending credential as every run keeps it: its record, if there is one, stands at the generation
  // its intent expects or at the next.
  predicate PendingTracked(s: State, id: CredentialId)
    requires id in s.rows && id in s.intents
  {
    var row, intent := s.rows[id], s.intents[id];
    && intent.credential == id
    && row.vaultState in {PendingStateOf(intent.operation), Reconcile}
    && row.status == intent.priorStatus
    && row.generation == intent.expected
    && (if intent.operation == Create then
          && row.status == Unconfigured && row.locator.None? && intent.expected.None? && intent.target == Some(1)
          && (intent.locator in s.records ==> Holds(s, id, intent.locator, 1))
        else
          && row.status in {Configured, Disabled}
          && row.locator == Some(intent.locator) && intent.expected.Some?
          && intent.target == (if intent.operation == Replace then Some(intent.expected.value + 1) else None)
          && (intent.locator in s.records ==>
                || Holds(s, id, intent.locator, intent.expected.value)
                || Holds(s, id, intent.locator, intent.expected.value + 1)))
  }

  // And as recovery needs it: a replace has its record, and a delete at most the one it is to remove.
  predicate PendingConsistent(s: State, id: CredentialId)
    requires id in s.rows && id in s.intents
  {
    var row, intent := s.rows[id], s.intents[id];
    && intent.credential == id
    && row.vaultState in {PendingStateOf(intent.operation), Reconcile}
    && row.status == intent.priorStatus
    && row.generation == intent.expected
    && (if intent.operation == Create then
          && row.status == Unconfigured && row.locator.None? && intent.expected.None? && intent.target == Some(1)
          && (intent.locator in s.records ==> Holds(s, id, intent.locator, 1))
        else
          && row.status in {Configured, Disabled}
          && row.locator == Some(intent.locator) && intent.expected.Some?
          && (if intent.operation == Replace then
                && intent.target == Some(intent.expected.value + 1)
                && (Holds(s, id, intent.locator, intent.expected.value)
                    || Holds(s, id, intent.locator, intent.expected.value + 1))
              else
                && intent.target.None?
                && (intent.locator in s.records ==> Holds(s, id, intent.locator, intent.expected.value))))
  }

  function CurrentLocator(s: State, id: CredentialId): Option<Locator>
    requires id in s.rows
  {
    if id in s.intents then Some(s.intents[id].locator) else s.rows[id].locator
  }

  // A delete intent whose record has moved past the generation it expects, or a replace intent whose
  // record is gone.
  predicate Stranded(s: State, id: CredentialId) {
    && id in s.intents && s.intents[id].credential == id
    && var intent := s.intents[id];
       if intent.SetsValue() then intent.operation.Replace? && intent.locator !in s.records
       else && intent.locator in s.records && s.records[intent.locator].owner == id
            && intent.expected != Some(s.records[intent.locator].generation)
  }

  predicate Tracked(s: State, id: CredentialId)
    requires id in s.rows
  {
    && (id in s.intents <==> s.rows[id].vaultState != Idle)
    && (id !in s.intents ==> IdleConsistent(s, id))
    && (id in s.intents ==> PendingTracked(s, id))
    && (id in s.approvals ==> s.rows[id].generation == Some(s.approvals[id].generation))
    && (CurrentLocator(s, id).Some? ==>
          CurrentLocator(s, id).value in s.claims && s.claims[CurrentLocator(s, id).value] == id)
  }

  predicate Consistent(s: State, id: CredentialId)
    requires id in s.rows
  {
    Tracked(s, id) && (id in s.intents ==> PendingConsistent(s, id))
  }

  // What tells a consistent credential from one that is only tracked.
  lemma ConsistentIffNotStranded(s: State, id: CredentialId)
    requires id in s.rows && Tracked(s, id)
    ensures Consistent(s, id) <==> !Stranded(s, id)
  {
  }

  // A vault record belongs to the credential its locator was generated for, which still names it.
  predicate Owned(s: State, l: Locator)
    requires l in s.records
  {
    && l in s.claims && s.records[l].owner == s.claims[l]
    && s.claims[l] in s.rows && CurrentLocator(s, s.claims[l]) == Some(l)
  }

  // What every run keeps.
  ghost predicate RunInv(s: State) {
    && s.intents.Keys <= s.rows.Keys && s.approvals.Keys <= s.rows.Keys && s.rows.Keys <= s.everAdded
    && (forall id | id in s.rows :: Tracked(s, id))
    && (forall l | l in s.records :: Owned(s, l))
  }

  // And what holds of a credential as long as no replay of the other kind strands it.
  ghost predicate Clear(s: State, id: CredentialId) {
    RunInv(s) && (id in s.rows ==> Consistent(s, id))
  }

  // All credentials are clear.
  ghost predicate Inv(s: State) {
    RunInv(s) && forall id | id in s.rows :: Consistent(s, id)
  }

  predicate Truthful(s: State, e: Executor) {
    match e.knowledge
    case Unknown => true
    case AtGeneration(g) => Holds(s, e.intent.credential, e.intent.locator, g)
    case RecordGone => e.intent.locator !in s.records
  }

  predicate ExecutorInv(s: State, id: CredentialId, e: Executor) {
    id in s.intents && e.intent == s.intents[id] && Truthful(s, e)
  }

  ghost predicate SystemInv(sys: System) {
    && RunInv(sys.state)
    && forall id | id in sys.executors :: ExecutorInv(sys.state, id, sys.executors[id])
  }

  // ---------- frame: a step on one credential leaves the others consistent ----------

  ghost predicate TouchesOnly(s: State, t: State, id: CredentialId) {
    && t.rows.Keys - {id} == s.rows.Keys - {id}
    && (forall o | o in s.rows && o != id :: o in t.rows && t.rows[o] == s.rows[o])
    && t.intents - {id} == s.intents - {id}
    && t.approvals - {id} == s.approvals - {id}
    && s.everAdded <= t.everAdded
    && (forall l | l in s.claims :: l in t.claims && t.claims[l] == s.claims[l])
    && (forall l | l in t.claims && l !in s.claims :: t.claims[l] == id)
    && (forall l :: (l in s.records || l in t.records) ==>
          (l in t.claims && t.claims[l] == id) || (l in s.records && l in t.records && t.records[l] == s.records[l]))
  }

  lemma OthersStay(s: State, t: State, id: CredentialId, o: CredentialId)
    requires RunInv(s) && TouchesOnly(s, t, id) && o != id && o in s.rows
    ensures o in t.rows && Tracked(t, o) && CurrentLocator(t, o) == CurrentLocator(s, o)
    ensures Stranded(t, o) <==> Stranded(s, o)
  {
    assert o in t.rows.Keys - {id} by { assert o in s.rows.Keys - {id}; }
    assert o in s.intents <==> o in s.intents - {id};
    assert o in t.intents <==> o in t.intents - {id};
    assert o in s.intents ==> t.intents[o] == (t.intents - {id})[o] == (s.intents - {id})[o] == s.intents[o];
    assert o in t.approvals <==> o in t.approvals - {id};
    assert o in s.approvals <==> o in s.approvals - {id};
    assert o in t.approvals ==> t.approvals[o] == (t.approvals - {id})[o] == (s.approvals - {id})[o] == s.approvals[o];
    assert Tracked(s, o);
    var c := CurrentLocator(s, o);
    if c.Some? {
      assert t.claims[c.value] == o;
    }
  }

  lemma FrameInv(s: State, t: State, id: CredentialId)
    requires RunInv(s) && TouchesOnly(s, t, id)
    requires id in t.rows ==> id in t.everAdded && Tracked(t, id)
    requires id in t.intents || id in t.approvals ==> id in t.rows
    requires forall l | l in t.records && l in t.claims && t.claims[l] == id :: Owned(t, l)
    ensures RunInv(t)
  {
    forall o | o in t.rows ensures Tracked(t, o) && o in t.everAdded {
      if o != id {
        assert o in t.rows.Keys - {id};
        assert o in s.rows;
        OthersStay(s, t, id, o);
      }
    }
    forall l | l in t.records ensures Owned(t, l) {
      if !(l in t.claims && t.claims[l] == id) {
        assert Owned(s, l);
        OthersStay(s, t, id, s.claims[l]);
      }
    }
    forall o | o in t.intents ensures o in t.rows {
      if o != id { assert o in t.intents - {id}; OthersStay(s, t, id, o); }
    }
    forall o | o in t.approvals ensures o in t.rows {
      if o != id { assert o in t.approvals - {id}; OthersStay(s, t, id, o); }
    }
  }
}
